/** Ids, confirmation and misses over whole runs of the track manager
    (helpers/track_manager.hpp:13-24, 139, 212-330). */
module TrackLifecycle {
  import opened Observations
  import opened Association
  import opened TrackStep

  // ----- ids, under any sequence of commands

  /** Ids in hand are positive, below the next one, and in order of birth. */
  ghost predicate IdsInv(ts: seq<Track>, nextId: int) {
    && nextId >= 1
    && (forall i :: 0 <= i < |ts| ==> 1 <= ts[i].id < nextId)
    && (forall a, b :: 0 <= a < b < |ts| ==> ts[a].id < ts[b].id)
  }

  ghost predicate HasId(ts: seq<Track>, id: int) {
    exists i :: 0 <= i < |ts| && ts[i].id == id
  }

  ghost predicate Publishes(os: seq<Observation>, id: int) {
    exists i :: 0 <= i < |os| && os[i].trk == id
  }

  /** The id that detection d of a frame is given. */
  function DetId(ts: seq<Track>, nextId: int, dt: seq<int>, d: nat): int
    requires d < |dt| && forall e :: 0 <= e < |dt| ==> dt[e] < |ts|
  {
    if dt[d] >= 0 then ts[dt[d]].id else nextId + Unmatched(dt, d)
  }

  /** The ids of all confident detections of a frame, in order. */
  function DetIds(ts: seq<Track>, nextId: int, dt: seq<int>): seq<int>
    requires forall e :: 0 <= e < |dt| ==> dt[e] < |ts|
  {
    seq(|dt|, d requires 0 <= d < |dt| => DetId(ts, nextId, dt, d))
  }

  lemma {:induction false} UnmatchedStep(dt: seq<int>, d: nat, k: nat)
    requires d < k <= |dt|
    ensures Unmatched(dt, d) <= Unmatched(dt, k) && (dt[d] < 0 ==> Unmatched(dt, d) < Unmatched(dt, k))
  {
    if d < k - 1 {
      UnmatchedStep(dt, d, k - 1);
    }
  }

  lemma DetIdRange(ts: seq<Track>, nextId: int, dt: seq<int>, d: nat)
    requires IdsInv(ts, nextId) && Table(dt, |ts|) && d < |dt|
    ensures if dt[d] >= 0 then 1 <= DetId(ts, nextId, dt, d) < nextId
            else nextId <= DetId(ts, nextId, dt, d) < nextId + Unmatched(dt, |dt|)
  {
    UnmatchedStep(dt, d, |dt|);
  }

  /** No two detections of a frame share an id. */
  lemma DetIdsDistinct(ts: seq<Track>, nextId: int, dt: seq<int>, d: nat, e: nat)
    requires IdsInv(ts, nextId) && Table(dt, |ts|) && d < e < |dt|
    ensures DetId(ts, nextId, dt, d) != DetId(ts, nextId, dt, e)
  {
    DetIdRange(ts, nextId, dt, d);
    DetIdRange(ts, nextId, dt, e);
    UnmatchedStep(dt, d, e);
    if dt[d] >= 0 && dt[e] >= 0 {
      var a, b := dt[d], dt[e];
      assert a != b;
    }
  }

  lemma {:induction false} BornIds(cfg: Config, ds: seq<Observation>, dt: seq<int>, nextId: int, k: nat)
    requires k <= |dt| == |ds|
    ensures forall i :: 0 <= i < Unmatched(dt, k) ==> Born(cfg, ds, dt, nextId, k)[i].id == nextId + i
  {
    if k > 0 {
      BornIds(cfg, ds, dt, nextId, k - 1);
    }
  }

  /** Survivors keep their order and are among the tracks before. */
  lemma {:induction false} SurvivorsFrom(cfg: Config, ts: seq<Track>, nextId: int)
    requires IdsInv(ts, nextId)
    ensures IdsInv(Survivors(cfg, ts), nextId)
    ensures forall i :: 0 <= i < |Survivors(cfg, ts)| ==>
      Survivors(cfg, ts)[i] in ts && !Dead(cfg, Survivors(cfg, ts)[i])
    ensures ts != [] ==> forall i :: 0 <= i < |Survivors(cfg, ts)| ==> Survivors(cfg, ts)[i].id <= ts[|ts| - 1].id
  {
    if ts != [] {
      hide Dead;
      SurvivorsFrom(cfg, ts[..|ts| - 1], nextId);
    }
  }

  lemma AdvanceIds(cfg: Config, ts: seq<Track>, ds: seq<Observation>, dt: seq<int>, nextId: int)
    requires IdsInv(ts, nextId) && |dt| == |ds|
    ensures IdsInv(Advance(cfg, ts, ds, dt), nextId)
  {
    hide Missed, Touched;
    var moved := Advance(cfg, ts, ds, dt);
    forall i | 0 <= i < |moved|
      ensures moved[i].id == ts[i].id
    {
    }
  }

  lemma AbsorbIds(st: State, f: Frame, ds: seq<Observation>, dt: seq<int>)
    requires IdsInv(st.tracks, st.nextId) && Table(dt, |st.tracks|) && |dt| == |ds|
    ensures
      var st' := Absorb(st, f, ds, dt).state;
      && IdsInv(st'.tracks, st'.nextId) && st'.nextId >= st.nextId
      && forall id :: HasId(st'.tracks, id) ==> HasId(st.tracks, id) || st.nextId <= id < st'.nextId
  {
    hide Advance, Born, Survivors, Dead, Absorb, IdsInv, HasId;
    var moved := Advance(st.cfg, st.tracks, ds, dt);
    AdvanceIds(st.cfg, st.tracks, ds, dt, st.nextId);
    SurvivorsFrom(st.cfg, moved, st.nextId);
    BornIds(st.cfg, ds, dt, st.nextId, |ds|);
    AbsorbParts(st, f, ds, dt);
    JoinIds(Survivors(st.cfg, moved), Born(st.cfg, ds, dt, st.nextId, |ds|), st.nextId);
    forall id | HasId(Survivors(st.cfg, moved), id) ensures HasId(st.tracks, id) {
      SurvivorHasId(st.cfg, st.tracks, ds, dt, id);
    }
  }

  lemma AbsorbParts(st: State, f: Frame, ds: seq<Observation>, dt: seq<int>)
    requires Table(dt, |st.tracks|) && |dt| == |ds|
    ensures
      var st' := Absorb(st, f, ds, dt).state;
      && st'.tracks == Survivors(st.cfg, Advance(st.cfg, st.tracks, ds, dt)) + Born(st.cfg, ds, dt, st.nextId, |ds|)
      && st'.nextId == st.nextId + Unmatched(dt, |ds|) && st'.cfg == st.cfg
  {
    hide Advance, Born, Survivors;
  }

  /** Tracks with ids from before, followed by tracks numbered on from there. */
  lemma JoinIds(kept: seq<Track>, born: seq<Track>, nextId: int)
    requires IdsInv(kept, nextId)
    requires forall i :: 0 <= i < |born| ==> born[i].id == nextId + i
    ensures IdsInv(kept + born, nextId + |born|)
    ensures forall id :: HasId(kept + born, id) ==> HasId(kept, id) || nextId <= id < nextId + |born|
  {
    var all := kept + born;
    forall id | HasId(all, id) ensures HasId(kept, id) || nextId <= id < nextId + |born| {
      var i :| 0 <= i < |all| && all[i].id == id;
      assert i < |kept| ==> kept[i].id == id;
    }
  }

  lemma SurvivorHasId(cfg: Config, ts: seq<Track>, ds: seq<Observation>, dt: seq<int>, id: int)
    requires |dt| == |ds| && HasId(Survivors(cfg, Advance(cfg, ts, ds, dt)), id)
    ensures HasId(ts, id)
  {
    hide Advance, Survivors, Dead;
    var moved := Advance(cfg, ts, ds, dt);
    var kept := Survivors(cfg, moved);
    var i :| 0 <= i < |kept| && kept[i].id == id;
    SurvivorsAmong(cfg, moved, kept[i]);
    var j :| 0 <= j < |moved| && moved[j] == kept[i];
    assert ts[j].id == id;
  }

  lemma {:induction false} SurvivorsAmong(cfg: Config, ts: seq<Track>, x: Track)
    ensures x in Survivors(cfg, ts) <==> x in ts && !Dead(cfg, x)
  {
    hide Dead;
    if ts != [] {
      var front, last := ts[..|ts| - 1], ts[|ts| - 1];
      SurvivorsAmong(cfg, front, x);
      assert ts == front + [last];
    }
  }

  // ----- what one frame publishes

  /** The tracks that the detections belong to once the frame has been absorbed. */
  function TracksAfter(cfg: Config, ts: seq<Track>, ds: seq<Observation>, dt: seq<int>,
                       nextId: int): (after: seq<Track>)
    requires |dt| == |ds| && forall e :: 0 <= e < |dt| ==> dt[e] < |ts|
    ensures |after| == |dt|
    ensures forall d :: 0 <= d < |dt| ==> after[d].id == DetId(ts, nextId, dt, d)
  {
    seq(|dt|, d requires 0 <= d < |dt| => TrackAfter(cfg, ts, ds, dt, nextId, d))
  }

  /** The track of one detection. */
  function TrackAfter(cfg: Config, ts: seq<Track>, ds: seq<Observation>, dt: seq<int>, nextId: int, d: nat): (t: Track)
    requires |dt| == |ds| && d < |dt| && forall e :: 0 <= e < |dt| ==> dt[e] < |ts|
    ensures t.id == DetId(ts, nextId, dt, d)
  {
    if dt[d] >= 0 then Advance(cfg, ts, ds, dt)[dt[d]] else Newborn(cfg, nextId + Unmatched(dt, d), ds[d])
  }

  /** `os` lists, in order, the detections named by `src`, each with the id of its confirmed track. */
  ghost predicate Sourced(os: seq<Observation>, src: seq<nat>, ds: seq<Observation>, after: seq<Track>) {
    && |src| == |os| && |ds| == |after|
    && (forall i :: 0 <= i < |src| ==>
         src[i] < |ds| && after[src[i]].confirmed && os[i] == Labelled(ds[src[i]], after[src[i]].id))
    && (forall a, b :: 0 <= a < b < |src| ==> src[a] != src[b])
  }

  lemma SourcedSnoc(os: seq<Observation>, src: seq<nat>, ds: seq<Observation>, after: seq<Track>, d: nat)
    requires Sourced(os, src, ds, after) && d < |ds| && after[d].confirmed
    requires forall i :: 0 <= i < |src| ==> src[i] < d
    ensures Sourced(os + [Labelled(ds[d], after[d].id)], src + [d], ds, after)
  {
  }

  /** The matched tracks, found by their place among all tracks. */
  ghost predicate MatchedIndexed(moved: seq<Track>, dt: seq<int>, after: seq<Track>)
    requires forall e :: 0 <= e < |dt| ==> dt[e] < |moved|
  {
    |after| == |dt| && forall d {:trigger after[d]} :: 0 <= d < |dt| && dt[d] >= 0 ==> after[d] == moved[dt[d]]
  }

  /** `src` names exactly the matched detections before k whose track is confirmed. */
  ghost predicate MatchedSources(src: seq<nat>, dt: seq<int>, after: seq<Track>, k: nat)
    requires k <= |dt| == |after|
  {
    && (forall i :: 0 <= i < |src| ==> src[i] < k && dt[src[i]] >= 0)
    && (forall d :: 0 <= d < k && dt[d] >= 0 && after[d].confirmed ==> d in src)
  }

  lemma MatchedSourcesStep(src: seq<nat>, dt: seq<int>, after: seq<Track>, k: nat)
    requires 1 <= k <= |dt| == |after| && MatchedSources(src, dt, after, k - 1)
    ensures MatchedSources(if dt[k - 1] >= 0 && after[k - 1].confirmed then src + [k - 1] else src, dt, after, k)
  {
  }

  /** The matched part, in detection order. */
  lemma {:induction false} PublishedSources(moved: seq<Track>, ds: seq<Observation>, dt: seq<int>, after: seq<Track>,
                                            k: nat)
    returns (src: seq<nat>)
    requires k <= |dt| == |ds| == |after| && forall e :: 0 <= e < |dt| ==> dt[e] < |moved|
    requires MatchedIndexed(moved, dt, after)
    ensures Sourced(Published(moved, ds, dt, k), src, ds, after)
    ensures MatchedSources(src, dt, after, k)
  {
    hide Sourced, Labelled, MatchedIndexed, MatchedSources;
    if k == 0 {
      src := [];
      NothingSourced(ds, dt, after);
    } else {
      PublishedStep(moved, ds, dt, after, k);
      hide Published;
      var before := PublishedSources(moved, ds, dt, after, k - 1);
      MatchedSourcesStep(before, dt, after, k);
      src := before;
      if dt[k - 1] >= 0 && after[k - 1].confirmed {
        MatchedSourcesBelow(before, dt, after, k - 1);
        SourcedSnoc(Published(moved, ds, dt, k - 1), before, ds, after, k - 1);
        src := before + [k - 1];
      }
    }
  }

  lemma NothingSourced(ds: seq<Observation>, dt: seq<int>, after: seq<Track>)
    requires |dt| == |after| == |ds|
    ensures Sourced([], [], ds, after) && MatchedSources([], dt, after, 0)
  {
  }

  lemma MatchedSourcesBelow(src: seq<nat>, dt: seq<int>, after: seq<Track>, k: nat)
    requires k <= |dt| == |after| && MatchedSources(src, dt, after, k)
    ensures forall i :: 0 <= i < |src| ==> src[i] < k
  {
  }

  lemma PublishedStep(moved: seq<Track>, ds: seq<Observation>, dt: seq<int>, after: seq<Track>, k: nat)
    requires 1 <= k <= |dt| == |ds| == |after| && forall e :: 0 <= e < |dt| ==> dt[e] < |moved|
    requires MatchedIndexed(moved, dt, after)
    ensures Published(moved, ds, dt, k) ==
            if dt[k - 1] >= 0 && after[k - 1].confirmed
            then Published(moved, ds, dt, k - 1) + [Labelled(ds[k - 1], after[k - 1].id)]
            else Published(moved, ds, dt, k - 1)
  {
    hide Labelled;
    var os := Published(moved, ds, dt, k - 1);
    assert os + [] == os;
  }

  /** The new tracks, found by the count of unmatched detections before theirs. */
  ghost predicate BornIndexed(born: seq<Track>, dt: seq<int>, after: seq<Track>) {
    |after| == |dt| && forall d {:trigger after[d]} :: 0 <= d < |dt| && dt[d] < 0 ==>
      Unmatched(dt, d) < |born| && after[d] == born[Unmatched(dt, d)]
  }

  lemma BornIndexedAt(born: seq<Track>, dt: seq<int>, after: seq<Track>, d: nat)
    requires BornIndexed(born, dt, after) && d < |dt| && dt[d] < 0
    ensures Unmatched(dt, d) < |born| && after[d] == born[Unmatched(dt, d)]
  {
    var t := after[d];
    assert t == born[Unmatched(dt, d)];
  }

  lemma PublishedBornStep(born: seq<Track>, ds: seq<Observation>, dt: seq<int>, after: seq<Track>, k: nat)
    requires 1 <= k <= |dt| == |ds| == |after| && Unmatched(dt, k) <= |born|
    requires BornIndexed(born, dt, after)
    ensures PublishedBorn(born, ds, dt, k) ==
            if dt[k - 1] < 0 && after[k - 1].confirmed
            then PublishedBorn(born, ds, dt, k - 1) + [Labelled(ds[k - 1], after[k - 1].id)]
            else PublishedBorn(born, ds, dt, k - 1)
  {
    hide Labelled, BornIndexed;
    var os := PublishedBorn(born, ds, dt, k - 1);
    if dt[k - 1] < 0 {
      BornIndexedAt(born, dt, after, k - 1);
    }
    assert os + [] == os;
  }

  /** The part of the tracks born in this frame. */
  lemma {:induction false} PublishedBornSources(born: seq<Track>, ds: seq<Observation>, dt: seq<int>, after: seq<Track>,
                                                k: nat)
    returns (src: seq<nat>)
    requires k <= |dt| == |ds| == |after| && Unmatched(dt, k) <= |born|
    requires BornIndexed(born, dt, after)
    ensures Sourced(PublishedBorn(born, ds, dt, k), src, ds, after)
    ensures forall i :: 0 <= i < |src| ==> src[i] < k && dt[src[i]] < 0
    ensures forall d :: 0 <= d < k && dt[d] < 0 && after[d].confirmed ==> d in src
  {
    hide Sourced, Labelled, PublishedBorn, BornIndexed;
    if k == 0 {
      src := [];
      NoneSourced(born, ds, dt, after);
    } else {
      var before := PublishedBornSources(born, ds, dt, after, k - 1);
      PublishedBornStep(born, ds, dt, after, k);
      src := before;
      if dt[k - 1] < 0 && after[k - 1].confirmed {
        src := before + [k - 1];
        SourcedSnoc(PublishedBorn(born, ds, dt, k - 1), before, ds, after, k - 1);
      }
    }
  }

  lemma NoneSourced(born: seq<Track>, ds: seq<Observation>, dt: seq<int>, after: seq<Track>)
    requires |dt| == |ds| == |after|
    ensures Sourced(PublishedBorn(born, ds, dt, 0), [], ds, after)
  {
  }

  lemma SourcedConcat(a: seq<Observation>, sa: seq<nat>, b: seq<Observation>, sb: seq<nat>, ds: seq<Observation>,
                      after: seq<Track>)
    requires Sourced(a, sa, ds, after) && Sourced(b, sb, ds, after)
    requires forall i, k :: 0 <= i < |sa| && 0 <= k < |sb| ==> sa[i] != sb[k]
    ensures Sourced(a + b, sa + sb, ds, after)
  {
  }

  lemma BornAfter(cfg: Config, ts: seq<Track>, ds: seq<Observation>, dt: seq<int>, nextId: int)
    requires |dt| == |ds| && forall e :: 0 <= e < |dt| ==> dt[e] < |ts|
    ensures
      var born, after := Born(cfg, ds, dt, nextId, |dt|), TracksAfter(cfg, ts, ds, dt, nextId);
      BornIndexed(born, dt, after)
  {
    hide Newborn, Born, Advance, TracksAfter, Unmatched;
    var born, after := Born(cfg, ds, dt, nextId, |dt|), TracksAfter(cfg, ts, ds, dt, nextId);
    forall d | 0 <= d < |dt| && dt[d] < 0
      ensures Unmatched(dt, d) < |born| && after[d] == born[Unmatched(dt, d)]
    {
      BornAt(cfg, ds, dt, nextId, d, |dt|);
      AfterAt(cfg, ts, ds, dt, nextId, d);
    }
  }

  lemma AfterAt(cfg: Config, ts: seq<Track>, ds: seq<Observation>, dt: seq<int>, nextId: int, d: nat)
    requires d < |dt| == |ds| && forall e :: 0 <= e < |dt| ==> dt[e] < |ts|
    ensures TracksAfter(cfg, ts, ds, dt, nextId)[d] ==
            if dt[d] >= 0 then Advance(cfg, ts, ds, dt)[dt[d]] else Newborn(cfg, nextId + Unmatched(dt, d), ds[d])
  {
    hide Advance, Newborn, Unmatched;
  }

  /** A frame publishes exactly the detections whose track is confirmed, each once, raw, with the
      id of that track. */
  lemma PublicationSources(st: State, f: Frame, ds: seq<Observation>, dt: seq<int>) returns (src: seq<nat>)
    requires Table(dt, |st.tracks|) && |dt| == |ds|
    ensures
      var after := TracksAfter(st.cfg, st.tracks, ds, dt, st.nextId);
      && Sourced(Absorb(st, f, ds, dt).out.obs, src, ds, after)
      && forall d :: 0 <= d < |ds| ==> (d in src <==> after[d].confirmed)
  {
    var after := TracksAfter(st.cfg, st.tracks, ds, dt, st.nextId);
    var moved, born := Advance(st.cfg, st.tracks, ds, dt), Born(st.cfg, ds, dt, st.nextId, |ds|);
    BornAfter(st.cfg, st.tracks, ds, dt, st.nextId);
    hide Born, Newborn, Published, PublishedBorn, BornIndexed;
    var a := PublishedSources(moved, ds, dt, after, |ds|);
    var b := PublishedBornSources(born, ds, dt, after, |ds|);
    SourcedConcat(Published(moved, ds, dt, |ds|), a, PublishedBorn(born, ds, dt, |ds|), b, ds, after);
    src := a + b;
    forall d | 0 <= d < |ds|
      ensures d in src <==> after[d].confirmed
    {
      if d in src {
        var i :| 0 <= i < |src| && src[i] == d;
        assert after[src[i]].confirmed;
      }
    }
  }

  // ----- the log of a run

  /** The ids that the detections of a frame are given. */
  function FrameIds(st: State, f: Frame): seq<int> {
    DetIds(st.tracks, st.nextId, Assoc(st.cfg, st.tracks, Confident(st.cfg, f.obs)))
  }

  /** For every frame fed in a run, the ids of its detections. */
  function Log(cfg: Config, cmds: seq<Command>): (h: seq<seq<int>>)
    ensures |h| == |Execute(cfg, cmds).outs|
  {
    if cmds == [] then []
    else
      var front, last := cmds[..|cmds| - 1], cmds[|cmds| - 1];
      if last.Feed? then Log(cfg, front) + [FrameIds(Execute(cfg, front).state, last.frame)] else Log(cfg, front)
  }

  /** The first frame in which an id occurs; |h| when none does. */
  function Birth(h: seq<seq<int>>, id: int): (b: nat)
    ensures b <= |h|
    ensures b < |h| ==> id in h[b]
    ensures forall k :: 0 <= k < b ==> id !in h[k]
  {
    if h == [] then 0
    else
      var b := Birth(h[..|h| - 1], id);
      if b < |h| - 1 then b else if id in h[|h| - 1] then |h| - 1 else |h|
  }

  /** The id occurs in the n frames from b on. */
  ghost predicate Streak(h: seq<seq<int>>, id: int, b: nat, n: nat) {
    b + n <= |h| && forall k :: b <= k < b + n ==> id in h[k]
  }

  /** By frame k the id has occurred in `hits` frames in a row from its first one on, and it
      occurs in frame k itself. */
  ghost predicate Earned(h: seq<seq<int>>, id: int, k: nat, hits: nat)
    requires k < |h|
  {
    && id in h[k]
    && Birth(h, id) + hits <= k + 1
    && Streak(h, id, Birth(h, id), hits)
  }

  lemma BirthExtend(h: seq<seq<int>>, e: seq<int>, id: int)
    ensures Birth(h + [e], id) == if Birth(h, id) < |h| then Birth(h, id) else if id in e then |h| else |h| + 1
  {
    assert (h + [e])[..|h|] == h;
  }

  lemma EarnedExtend(h: seq<seq<int>>, e: seq<int>, id: int, k: nat, hits: nat)
    requires k < |h|
    ensures Earned(h + [e], id, k, hits) <==> Earned(h, id, k, hits)
  {
    BirthExtend(h, e, id);
    var g := h + [e];
    assert forall j :: 0 <= j < |h| ==> g[j] == h[j];
    if id in h[k] {
      assert Birth(h, id) <= k;
    }
  }

  // ----- what the log says about a track

  /** A live track: unconfirmed ones have matched every frame since birth and are still short of
      the required hits; confirmed ones matched that many frames in a row from birth. */
  ghost predicate TrackInv(h: seq<seq<int>>, cfg: Config, t: Track) {
    && Birth(h, t.id) < |h|
    && if t.confirmed then
         cfg.confirmHits >= 1 && Streak(h, t.id, Birth(h, t.id), cfg.confirmHits) && t.misses <= cfg.maxMisses
       else
         && t.misses == 0 && 1 <= t.hits < cfg.confirmHits
         && Birth(h, t.id) + t.hits == |h| && Streak(h, t.id, Birth(h, t.id), t.hits)
  }

  /** All live tracks obey TrackInv, and every id in the log has been issued. */
  ghost predicate LogInv(h: seq<seq<int>>, st: State) {
    && IdsInv(st.tracks, st.nextId) && st.cfg.confirmHits >= 1 && st.cfg.maxMisses >= 0
    && (forall k, d :: 0 <= k < |h| && 0 <= d < |h[k]| ==> h[k][d] < st.nextId)
    && (forall i :: 0 <= i < |st.tracks| ==> TrackInv(h, st.cfg, st.tracks[i]))
  }

  lemma StreakExtend(h: seq<seq<int>>, e: seq<int>, id: int, b: nat, n: nat)
    requires Streak(h, id, b, n)
    ensures Streak(h + [e], id, b, n)
    ensures b + n == |h| && id in e ==> Streak(h + [e], id, b, n + 1)
  {
  }

  /** A matched track: one more frame in the log, one more hit. */
  lemma TouchedInv(h: seq<seq<int>>, e: seq<int>, cfg: Config, t: Track, o: Observation)
    requires TrackInv(h, cfg, t) && t.id in e && cfg.confirmHits >= 1 && cfg.maxMisses >= 0
    ensures TrackInv(h + [e], cfg, Touched(cfg, t, o))
  {
    BirthExtend(h, e, t.id);
    var b := Birth(h, t.id);
    StreakExtend(h, e, t.id, b, if t.confirmed then cfg.confirmHits else t.hits);
    hide Birth, Streak;
  }

  /** A missed track lives on only if it was confirmed, and then its record stands. */
  lemma MissedInv(h: seq<seq<int>>, e: seq<int>, cfg: Config, t: Track)
    requires TrackInv(h, cfg, t) && !Dead(cfg, Missed(t))
    ensures TrackInv(h + [e], cfg, Missed(t))
  {
    BirthExtend(h, e, t.id);
    StreakExtend(h, e, t.id, Birth(h, t.id), if t.confirmed then cfg.confirmHits else t.hits);
    hide Birth, Streak;
  }

  lemma NewbornInv(h: seq<seq<int>>, e: seq<int>, cfg: Config, id: int, o: Observation)
    requires id in e && Birth(h, id) == |h| && cfg.confirmHits >= 1 && cfg.maxMisses >= 0
    ensures TrackInv(h + [e], cfg, Newborn(cfg, id, o))
  {
    BirthExtend(h, e, id);
    hide Birth;
  }

  /** A track is confirmed exactly when its id has earned it. */
  lemma ConfirmedIffEarned(h: seq<seq<int>>, cfg: Config, t: Track)
    requires h != [] && TrackInv(h, cfg, t) && t.id in h[|h| - 1]
    ensures t.confirmed <==> Earned(h, t.id, |h| - 1, cfg.confirmHits)
  {
  }

  // ----- the log over a run with a fixed configuration

  lemma {:induction false} BornSource(cfg: Config, ds: seq<Observation>, dt: seq<int>, nextId: int, k: nat, i: nat)
    returns (d: nat)
    requires k <= |dt| == |ds| && i < Unmatched(dt, k)
    ensures d < k && dt[d] < 0 && Unmatched(dt, d) == i
    ensures Born(cfg, ds, dt, nextId, k)[i] == Newborn(cfg, nextId + i, ds[d])
  {
    hide Newborn;
    if i == Unmatched(dt, k - 1) {
      d := k - 1;
    } else {
      d := BornSource(cfg, ds, dt, nextId, k - 1, i);
    }
  }

  lemma UnseenBirth(h: seq<seq<int>>, nextId: int, id: int)
    requires forall k, d :: 0 <= k < |h| && 0 <= d < |h[k]| ==> h[k][d] < nextId
    requires id >= nextId
    ensures Birth(h, id) == |h|
  {
    assert forall k :: 0 <= k < |h| ==> id !in h[k];
  }

  lemma LogMeans(h: seq<seq<int>>, st: State)
    requires LogInv(h, st)
    ensures IdsInv(st.tracks, st.nextId) && st.cfg.confirmHits >= 1 && st.cfg.maxMisses >= 0
    ensures forall i :: 0 <= i < |st.tracks| ==> TrackInv(h, st.cfg, st.tracks[i])
    ensures forall id :: id >= st.nextId ==> Birth(h, id) == |h|
  {
    hide TrackInv, IdsInv, Birth;
    forall id | id >= st.nextId ensures Birth(h, id) == |h| {
      UnseenBirth(h, st.nextId, id);
    }
  }

  lemma DetIdListed(ts: seq<Track>, nextId: int, dt: seq<int>, d: nat)
    requires d < |dt| && forall e :: 0 <= e < |dt| ==> dt[e] < |ts|
    ensures DetId(ts, nextId, dt, d) in DetIds(ts, nextId, dt)
  {
    hide DetId;
    assert DetIds(ts, nextId, dt)[d] == DetId(ts, nextId, dt, d);
  }

  /** The track of every detection of a frame fits the log with that frame. */
  lemma AfterInv(h: seq<seq<int>>, st: State, ds: seq<Observation>, dt: seq<int>, d: nat)
    requires LogInv(h, st) && Table(dt, |st.tracks|) && d < |dt| == |ds|
    ensures TrackInv(h + [DetIds(st.tracks, st.nextId, dt)], st.cfg,
                     TracksAfter(st.cfg, st.tracks, ds, dt, st.nextId)[d])
  {
    LogMeans(h, st);
    hide TracksAfter, TrackInv, Newborn, Touched, DetIds, Advance, LogInv, Birth, IdsInv;
    var e := DetIds(st.tracks, st.nextId, dt);
    DetIdListed(st.tracks, st.nextId, dt, d);
    AfterAt(st.cfg, st.tracks, ds, dt, st.nextId, d);
    if dt[d] >= 0 {
      MatchedIsTouched(st.cfg, st.tracks, ds, dt, d);
      TouchedInv(h, e, st.cfg, st.tracks[dt[d]], ds[d]);
    } else {
      NewbornInv(h, e, st.cfg, DetId(st.tracks, st.nextId, dt, d), ds[d]);
    }
  }

  lemma MatchedIsTouched(cfg: Config, ts: seq<Track>, ds: seq<Observation>, dt: seq<int>, d: nat)
    requires Table(dt, |ts|) && d < |dt| == |ds| && dt[d] >= 0
    ensures Advance(cfg, ts, ds, dt)[dt[d]] == Touched(cfg, ts[dt[d]], ds[d])
  {
    hide Touched, Missed;
    var e := DetOf(dt, dt[d], |dt|);
    assert dt[e] == dt[d];
  }

  lemma MovedInv(h: seq<seq<int>>, st: State, ds: seq<Observation>, dt: seq<int>, t: nat)
    requires LogInv(h, st) && Table(dt, |st.tracks|) && t < |st.tracks| && |dt| == |ds|
    requires !Dead(st.cfg, Advance(st.cfg, st.tracks, ds, dt)[t])
    ensures TrackInv(h + [DetIds(st.tracks, st.nextId, dt)], st.cfg, Advance(st.cfg, st.tracks, ds, dt)[t])
  {
    var d := DetOf(dt, t, |dt|);
    var e := DetIds(st.tracks, st.nextId, dt);
    hide TrackInv, Dead, Missed, Touched;
    if d >= 0 {
      assert e[d] == st.tracks[t].id;
      TouchedInv(h, e, st.cfg, st.tracks[t], ds[d]);
    } else {
      MissedInv(h, e, st.cfg, st.tracks[t]);
    }
  }

  lemma SurvivorInv(h: seq<seq<int>>, st: State, ds: seq<Observation>, dt: seq<int>, i: nat)
    requires LogInv(h, st) && Table(dt, |st.tracks|) && |dt| == |ds|
    requires i < |Survivors(st.cfg, Advance(st.cfg, st.tracks, ds, dt))|
    ensures TrackInv(h + [DetIds(st.tracks, st.nextId, dt)], st.cfg,
                     Survivors(st.cfg, Advance(st.cfg, st.tracks, ds, dt))[i])
  {
    var moved := Advance(st.cfg, st.tracks, ds, dt);
    hide TrackInv, Dead, Advance, Survivors;
    AdvanceIds(st.cfg, st.tracks, ds, dt, st.nextId);
    SurvivorsFrom(st.cfg, moved, st.nextId);
    var t :| 0 <= t < |moved| && moved[t] == Survivors(st.cfg, moved)[i];
    MovedInv(h, st, ds, dt, t);
  }

  lemma BornInv(h: seq<seq<int>>, st: State, ds: seq<Observation>, dt: seq<int>, i: nat)
    requires LogInv(h, st) && Table(dt, |st.tracks|) && |dt| == |ds| && i < Unmatched(dt, |dt|)
    ensures TrackInv(h + [DetIds(st.tracks, st.nextId, dt)], st.cfg, Born(st.cfg, ds, dt, st.nextId, |dt|)[i])
  {
    hide TrackInv, TracksAfter, Born, Newborn;
    var d := BornSource(st.cfg, ds, dt, st.nextId, |dt|, i);
    AfterInv(h, st, ds, dt, d);
    AfterAt(st.cfg, st.tracks, ds, dt, st.nextId, d);
  }

  /** Every track of the next state fits the log with the frame. */
  lemma NextTrackInv(h: seq<seq<int>>, st: State, f: Frame, ds: seq<Observation>, dt: seq<int>, i: nat)
    requires LogInv(h, st) && Table(dt, |st.tracks|) && |dt| == |ds|
    requires i < |Absorb(st, f, ds, dt).state.tracks|
    ensures TrackInv(h + [DetIds(st.tracks, st.nextId, dt)], st.cfg, Absorb(st, f, ds, dt).state.tracks[i])
  {
    hide TrackInv, Survivors, Advance, Born, LogInv, DetIds, Absorb, Unmatched;
    AbsorbParts(st, f, ds, dt);
    TableBelow(dt, |st.tracks|);
    hide Table;
    var alive := Survivors(st.cfg, Advance(st.cfg, st.tracks, ds, dt));
    if i < |alive| {
      SurvivorInv(h, st, ds, dt, i);
    } else {
      BornInv(h, st, ds, dt, i - |alive|);
    }
  }

  lemma DetIdsBelow(ts: seq<Track>, nextId: int, dt: seq<int>)
    requires IdsInv(ts, nextId) && Table(dt, |ts|)
    ensures |DetIds(ts, nextId, dt)| == |dt|
    ensures forall d :: 0 <= d < |dt| ==> DetIds(ts, nextId, dt)[d] < nextId + Unmatched(dt, |dt|)
  {
    hide IdsInv, Table, Unmatched;
    TableBelow(dt, |ts|);
    forall d | 0 <= d < |dt|
      ensures DetIds(ts, nextId, dt)[d] < nextId + Unmatched(dt, |dt|)
    {
      DetIdRange(ts, nextId, dt, d);
    }
  }

  lemma TableBelow(dt: seq<int>, n: nat)
    requires Table(dt, n)
    ensures forall d :: 0 <= d < |dt| ==> dt[d] < n
  {
  }

  /** The ids of the log and of one more frame are all issued. */
  lemma LogIssued(h: seq<seq<int>>, e: seq<int>, nextId: int, next: int)
    requires nextId <= next
    requires forall k, d :: 0 <= k < |h| && 0 <= d < |h[k]| ==> h[k][d] < nextId
    requires forall d :: 0 <= d < |e| ==> e[d] < next
    ensures forall k, d :: 0 <= k < |h + [e]| && 0 <= d < |(h + [e])[k]| ==> (h + [e])[k][d] < next
  {
  }

  lemma LogStep(h: seq<seq<int>>, st: State, f: Frame, ds: seq<Observation>, dt: seq<int>)
    requires LogInv(h, st) && Table(dt, |st.tracks|) && |dt| == |ds|
    ensures LogInv(h + [DetIds(st.tracks, st.nextId, dt)], Absorb(st, f, ds, dt).state)
  {
    hide TrackInv, Survivors, Advance, Born, IdsInv, DetIds, Unmatched, Absorb, HasId;
    var e := DetIds(st.tracks, st.nextId, dt);
    var st' := Absorb(st, f, ds, dt).state;
    AbsorbIds(st, f, ds, dt);
    AbsorbParts(st, f, ds, dt);
    DetIdsBelow(st.tracks, st.nextId, dt);
    LogIssued(h, e, st.nextId, st'.nextId);
    forall i | 0 <= i < |st'.tracks|
      ensures TrackInv(h + [e], st.cfg, st'.tracks[i])
    {
      NextTrackInv(h, st, f, ds, dt, i);
    }
  }

  ghost predicate FixedConfig(cmds: seq<Command>) {
    forall k :: 0 <= k < |cmds| ==> !cmds[k].SetConfig?
  }

  /** The track invariant and the log hold after every run with a fixed configuration. */
  lemma {:induction false} LogHolds(cfg: Config, cmds: seq<Command>)
    requires FixedConfig(cmds)
    ensures LogInv(Log(cfg, cmds), Execute(cfg, cmds).state)
    ensures Execute(cfg, cmds).state.cfg == Sanitize(cfg)
  {
    if cmds != [] {
      hide LogInv, Assoc, Confident, Absorb, FrameIds;
      var front, last := cmds[..|cmds| - 1], cmds[|cmds| - 1];
      LogHolds(cfg, front);
      var h, st := Log(cfg, front), Execute(cfg, front).state;
      if last.Feed? {
        FrameStep(h, st, last.frame);
      } else {
        ResetStep(h, st);
      }
    } else {
      EmptyLog(Sanitize(cfg));
    }
  }

  lemma EmptyLog(cfg: Config)
    requires cfg.confirmHits >= 1 && cfg.maxMisses >= 0
    ensures LogInv([], State(cfg, [], 1))
  {
  }

  lemma ResetStep(h: seq<seq<int>>, st: State)
    requires LogInv(h, st)
    ensures LogInv(h, st.(tracks := []))
  {
  }

  lemma FrameStep(h: seq<seq<int>>, st: State, f: Frame)
    requires LogInv(h, st)
    ensures LogInv(h + [FrameIds(st, f)], Update(st, f).state) && Update(st, f).state.cfg == st.cfg
  {
    hide LogInv, Assoc, Confident;
    var ds := Confident(st.cfg, f.obs);
    AssocIsTable(st.cfg, st.tracks, ds);
    LogStep(h, st, f, ds, Assoc(st.cfg, st.tracks, ds));
  }

  // ----- when an id is published

  lemma ConfirmedAfter(h: seq<seq<int>>, st: State, ds: seq<Observation>, dt: seq<int>, d: nat)
    requires LogInv(h, st) && Table(dt, |st.tracks|) && d < |dt| == |ds|
    ensures
      var e, after := DetIds(st.tracks, st.nextId, dt), TracksAfter(st.cfg, st.tracks, ds, dt, st.nextId);
      && st.cfg.confirmHits >= 1 && e[d] == after[d].id
      && (after[d].confirmed <==> Earned(h + [e], e[d], |h|, st.cfg.confirmHits))
  {
    var e, after := DetIds(st.tracks, st.nextId, dt), TracksAfter(st.cfg, st.tracks, ds, dt, st.nextId);
    assert after[d].id == e[d];
    hide TrackInv, TracksAfter, LogInv, Birth, Streak;
    AfterInv(h, st, ds, dt, d);
    LogConfig(h, st);
    ConfirmedIffEarned(h + [e], st.cfg, after[d]);
  }

  lemma PublishesIff(os: seq<Observation>, src: seq<nat>, ds: seq<Observation>, after: seq<Track>, id: int)
    requires Sourced(os, src, ds, after) && forall d :: 0 <= d < |ds| ==> (d in src <==> after[d].confirmed)
    ensures Publishes(os, id) <==> exists d :: 0 <= d < |ds| && after[d].id == id && after[d].confirmed
  {
    if Publishes(os, id) {
      var i :| 0 <= i < |os| && os[i].trk == id;
      assert after[src[i]].id == id;
    }
    if d :| 0 <= d < |ds| && after[d].id == id && after[d].confirmed {
      assert d in src;
      var i :| 0 <= i < |src| && src[i] == d;
      assert os[i].trk == id;
    }
  }

  lemma AbsorbPublishes(h: seq<seq<int>>, st: State, f: Frame, ds: seq<Observation>, dt: seq<int>, id: int)
    requires LogInv(h, st) && Table(dt, |st.tracks|) && |dt| == |ds|
    ensures st.cfg.confirmHits >= 1
    ensures Publishes(Absorb(st, f, ds, dt).out.obs, id) <==>
            Earned(h + [DetIds(st.tracks, st.nextId, dt)], id, |h|, st.cfg.confirmHits)
  {
    var e, after := DetIds(st.tracks, st.nextId, dt), TracksAfter(st.cfg, st.tracks, ds, dt, st.nextId);
    var src := PublicationSources(st, f, ds, dt);
    LogConfig(h, st);
    PublishesIff(Absorb(st, f, ds, dt).out.obs, src, ds, after, id);
    hide TracksAfter, LogInv, Birth, Streak, Absorb, Publishes, Sourced;
    assert (h + [e])[|h|] == e;
    forall d | 0 <= d < |ds|
      ensures e[d] == after[d].id && (after[d].confirmed <==> Earned(h + [e], e[d], |h|, st.cfg.confirmHits))
    {
      ConfirmedAfter(h, st, ds, dt, d);
    }
  }

  lemma PublishedIffEarned(h: seq<seq<int>>, st: State, f: Frame, id: int)
    requires LogInv(h, st)
    ensures st.cfg.confirmHits >= 1
    ensures Publishes(Update(st, f).out.obs, id) <==> Earned(h + [FrameIds(st, f)], id, |h|, st.cfg.confirmHits)
  {
    hide Assoc, Confident, Absorb, LogInv, Earned, Publishes, DetIds;
    var ds := Confident(st.cfg, f.obs);
    AssocIsTable(st.cfg, st.tracks, ds);
    AbsorbPublishes(h, st, f, ds, Assoc(st.cfg, st.tracks, ds), id);
  }

  lemma LogConfig(h: seq<seq<int>>, st: State)
    requires LogInv(h, st)
    ensures st.cfg.confirmHits >= 1
  {
  }

  /** An id is published in a frame exactly when it is matched there and was matched in
      confirm_hits frames in a row from its first one on. */
  lemma {:induction false} PublishedWhenConfirmed(cfg: Config, cmds: seq<Command>, k: nat, id: int)
    requires FixedConfig(cmds) && k < |Execute(cfg, cmds).outs|
    ensures Publishes(Execute(cfg, cmds).outs[k].obs, id) <==> Earned(Log(cfg, cmds), id, k, Sanitize(cfg).confirmHits)
  {
    hide FrameIds, Update, Earned, LogInv, Sanitize, Publishes;
    var front, last := cmds[..|cmds| - 1], cmds[|cmds| - 1];
    var r := Execute(cfg, front);
    if last.Feed? && k == |r.outs| {
      LogHolds(cfg, front);
      PublishedIffEarned(Log(cfg, front), r.state, last.frame, id);
    } else {
      PublishedWhenConfirmed(cfg, front, k, id);
      if last.Feed? {
        EarnedExtend(Log(cfg, front), FrameIds(r.state, last.frame), id, k, Sanitize(cfg).confirmHits);
      }
    }
  }

  /** The first publication of an id is exactly in its confirm_hits-th frame. */
  lemma FirstPublication(cfg: Config, cmds: seq<Command>, k: nat, id: int)
    requires FixedConfig(cmds) && k < |Execute(cfg, cmds).outs|
    requires Publishes(Execute(cfg, cmds).outs[k].obs, id)
    requires forall j :: 0 <= j < k ==> !Publishes(Execute(cfg, cmds).outs[j].obs, id)
    ensures k == Birth(Log(cfg, cmds), id) + Sanitize(cfg).confirmHits - 1
  {
    hide Birth, Log, Execute, Publishes, Sanitize;
    var h, hits := Log(cfg, cmds), Sanitize(cfg).confirmHits;
    PublishedWhenConfirmed(cfg, cmds, k, id);
    var first := Birth(h, id) + hits - 1;
    if first < k {
      PublishedWhenConfirmed(cfg, cmds, first, id);
    }
  }

  // ----- ids are never reused

  lemma {:induction false} ReachableIds(cfg: Config, cmds: seq<Command>)
    ensures IdsInv(Execute(cfg, cmds).state.tracks, Execute(cfg, cmds).state.nextId)
  {
    if cmds != [] {
      var front, last := cmds[..|cmds| - 1], cmds[|cmds| - 1];
      ReachableIds(cfg, front);
      if last.Feed? {
        hide IdsInv;
        UpdateIds(Execute(cfg, front).state, last.frame);
      }
    }
  }

  lemma UpdateIds(st: State, f: Frame)
    requires IdsInv(st.tracks, st.nextId)
    ensures
      var st' := Update(st, f).state;
      && IdsInv(st'.tracks, st'.nextId) && st'.nextId >= st.nextId
      && forall id :: HasId(st'.tracks, id) ==> HasId(st.tracks, id) || st.nextId <= id < st'.nextId
  {
    hide IdsInv, HasId, Assoc, Confident, Absorb;
    var ds := Confident(st.cfg, f.obs);
    AssocIsTable(st.cfg, st.tracks, ds);
    AbsorbIds(st, f, ds, Assoc(st.cfg, st.tracks, ds));
  }

  /** A frame only publishes ids of tracks at hand and new ids. */
  lemma PublishedKnown(st: State, f: Frame, id: int)
    requires IdsInv(st.tracks, st.nextId) && Publishes(Update(st, f).out.obs, id)
    ensures HasId(st.tracks, id) || st.nextId <= id < Update(st, f).state.nextId
  {
    var ds := Confident(st.cfg, f.obs);
    var dt := Assoc(st.cfg, st.tracks, ds);
    AssocIsTable(st.cfg, st.tracks, ds);
    var os := Update(st, f).out.obs;
    hide Assoc, Confident, Absorb, TracksAfter;
    var src := PublicationSources(st, f, ds, dt);
    var i :| 0 <= i < |os| && os[i].trk == id;
    DetIdRange(st.tracks, st.nextId, dt, src[i]);
    AbsorbNextId(st, f, ds, dt);
    if dt[src[i]] >= 0 {
      assert st.tracks[dt[src[i]]].id == id;
    }
  }

  lemma AbsorbNextId(st: State, f: Frame, ds: seq<Observation>, dt: seq<int>)
    requires |dt| == |ds| && Table(dt, |st.tracks|)
    ensures Absorb(st, f, ds, dt).state.nextId == st.nextId + Unmatched(dt, |dt|)
  {
  }

  /** The id has been issued, no track holds it, and nothing from the n-th frame on published it. */
  ghost predicate Gone(r: Run, n: nat, id: int) {
    && id < r.state.nextId && !HasId(r.state.tracks, id)
    && n <= |r.outs|
    && forall k :: n <= k < |r.outs| ==> !Publishes(r.outs[k].obs, id)
  }

  lemma GoneAfterFrame(r: Run, n: nat, id: int, f: Frame)
    requires Gone(r, n, id) && IdsInv(r.state.tracks, r.state.nextId)
    ensures Gone(Run(Update(r.state, f).state, r.outs + [Update(r.state, f).out]), n, id)
  {
    hide HasId, Publishes, Update, IdsInv;
    UpdateIds(r.state, f);
    if Publishes(Update(r.state, f).out.obs, id) {
      PublishedKnown(r.state, f, id);
    }
  }

  lemma GoneAfterReset(r: Run, n: nat, id: int)
    requires Gone(r, n, id)
    ensures Gone(r.(state := r.state.(tracks := [])), n, id)
  {
    NoIds(id);
    hide HasId, Publishes;
  }

  lemma GoneAfterConfig(r: Run, n: nat, id: int, cfg: Config)
    requires Gone(r, n, id)
    ensures Gone(r.(state := r.state.(cfg := cfg)), n, id)
  {
    hide HasId, Publishes;
  }

  /** An id that has been issued and is no longer held never comes back: not as a track and not
      in a publication, whatever frames, resets and configurations follow. */
  lemma {:induction false} IdsAreNeverReused(cfg: Config, past: seq<Command>, more: seq<Command>, id: int)
    requires id < Execute(cfg, past).state.nextId && !HasId(Execute(cfg, past).state.tracks, id)
    ensures Gone(Execute(cfg, past + more), |Execute(cfg, past).outs|, id)
  {
    hide HasId, Publishes, Update, IdsInv, Execute, Sanitize;
    if more == [] {
      assert past + more == past;
    } else {
      hide Gone;
      var front, last := more[..|more| - 1], more[|more| - 1];
      var r, n := Execute(cfg, past + front), |Execute(cfg, past).outs|;
      IdsAreNeverReused(cfg, past, front, id);
      assert past + more == past + front + [last];
      ExecuteSnoc(cfg, past + front, last);
      match last {
        case Feed(f) =>
          ReachableIds(cfg, past + front);
          GoneAfterFrame(r, n, id, f);
        case Reset => GoneAfterReset(r, n, id);
        case SetConfig(c) => GoneAfterConfig(r, n, id, Sanitize(c));
      }
    }
  }

  lemma NoIds(id: int)
    ensures !HasId([], id)
  {
  }

  /** In every reachable state a frame publishes raw input detections that pass min_conf, each
      under an id of its own, and never two ids for one detection. */
  lemma PublishedAreRaw(cfg: Config, cmds: seq<Command>, f: Frame) returns (src: seq<nat>)
    ensures
      var st := Execute(cfg, cmds).state;
      var ds, os := Confident(st.cfg, f.obs), Update(st, f).out.obs;
      && |src| == |os|
      && (forall i :: 0 <= i < |os| ==>
        src[i] < |ds| && os[i].trk >= 1 && os[i] == ds[src[i]].(hasTrk := true, trk := os[i].trk))
      && (forall a, b :: 0 <= a < b < |os| ==> src[a] != src[b] && os[a].trk != os[b].trk)
      && Update(st, f).out.camId == f.camId && Update(st, f).out.tmCapture == f.tmCapture
  {
    var st := Execute(cfg, cmds).state;
    var ds := Confident(st.cfg, f.obs);
    var dt := Assoc(st.cfg, st.tracks, ds);
    ReachableIds(cfg, cmds);
    AssocIsTable(st.cfg, st.tracks, ds);
    hide Execute, Assoc, Confident, TracksAfter, IdsInv, Table;
    src := RawSources(st, f, ds, dt);
  }

  lemma RawSources(st: State, f: Frame, ds: seq<Observation>, dt: seq<int>) returns (src: seq<nat>)
    requires IdsInv(st.tracks, st.nextId) && Table(dt, |st.tracks|) && |dt| == |ds|
    ensures
      var os := Absorb(st, f, ds, dt).out.obs;
      && |src| == |os|
      && (forall i :: 0 <= i < |os| ==> src[i] < |ds| && os[i].trk >= 1 && os[i] == Labelled(ds[src[i]], os[i].trk))
      && (forall a, b :: 0 <= a < b < |os| ==> src[a] != src[b] && os[a].trk != os[b].trk)
  {
    hide TracksAfter, Absorb, Unmatched;
    var os := Absorb(st, f, ds, dt).out.obs;
    src := PublicationSources(st, f, ds, dt);
    forall i | 0 <= i < |os|
      ensures os[i].trk == DetId(st.tracks, st.nextId, dt, src[i]) && os[i].trk >= 1
    {
      DetIdRange(st.tracks, st.nextId, dt, src[i]);
    }
    forall a, b | 0 <= a < b < |os|
      ensures os[a].trk != os[b].trk
    {
      if src[a] < src[b] {
        DetIdsDistinct(st.tracks, st.nextId, dt, src[a], src[b]);
      } else {
        DetIdsDistinct(st.tracks, st.nextId, dt, src[b], src[a]);
      }
    }
  }
}
