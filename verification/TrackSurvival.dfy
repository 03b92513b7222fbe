/** How long tracks are held: exactly as long as the log of matched ids says
    (helpers/track_manager.hpp:18-24, 212-226, 270-276, 316-329). */
module TrackSurvival {
  import opened Observations
  import opened Association
  import opened TrackStep
  import opened TrackLifecycle

  /** The last frame in which an id occurs; -1 when none does. */
  function LastSeen(h: seq<seq<int>>, id: int): (k: int)
    ensures -1 <= k < |h|
    ensures k >= 0 ==> id in h[k]
    ensures forall j :: k < j < |h| ==> id !in h[j]
  {
    if h == [] then -1 else if id in h[|h| - 1] then |h| - 1 else LastSeen(h[..|h| - 1], id)
  }

  /** How many frames were fed before the last reset. */
  function FramesAtReset(cfg: Config, cmds: seq<Command>): (n: nat)
    ensures n <= |Log(cfg, cmds)|
  {
    if cmds == [] then 0
    else
      var front, last := cmds[..|cmds| - 1], cmds[|cmds| - 1];
      if last.Reset? then |Log(cfg, front)| else FramesAtReset(cfg, front)
  }

  /** The id was matched in `hits` frames in a row from its first one on. */
  ghost predicate EverConfirmed(h: seq<seq<int>>, id: int, hits: nat) {
    Streak(h, id, Birth(h, id), hits)
  }

  /** Seen since the last reset, and since then missed at most max_misses frames in a row if it was ever
      confirmed, none if it was not. */
  ghost predicate StillDue(h: seq<seq<int>>, reset: nat, cfg: Config, id: int)
    requires cfg.confirmHits >= 1
  {
    var last := LastSeen(h, id);
    last >= reset && if EverConfirmed(h, id, cfg.confirmHits) then |h| - 1 - last <= cfg.maxMisses else last == |h| - 1
  }

  // ----- one frame

  lemma SeenIffMatched(ts: seq<Track>, nextId: int, dt: seq<int>, t: nat)
    requires IdsInv(ts, nextId) && Table(dt, |ts|) && t < |ts|
    ensures ts[t].id in DetIds(ts, nextId, dt) <==> t in dt
  {
    var e := DetIds(ts, nextId, dt);
    if t in dt {
      var d :| 0 <= d < |dt| && dt[d] == t;
      DetIdListed(ts, nextId, dt, d);
    }
    if ts[t].id in e {
      var d :| 0 <= d < |e| && e[d] == ts[t].id;
      DetIdRange(ts, nextId, dt, d);
      assert e[d] == DetId(ts, nextId, dt, d);
      assert dt[d] >= 0;
      assert dt[d] == t;
    }
  }

  /** A track no detection matched has missed, a matched one has not. */
  lemma AdvancedTrack(cfg: Config, ts: seq<Track>, ds: seq<Observation>, dt: seq<int>, t: nat)
    requires |dt| == |ds| && t < |ts|
    ensures var x := Advance(cfg, ts, ds, dt)[t]; if t in dt then x.misses == 0 else x == Missed(ts[t])
  {
    var d := DetOf(dt, t, |dt|);
    assert d >= 0 ==> dt[d] == t;
  }

  /** Where a track of the next state comes from. */
  lemma TrackOrigin(st: State, f: Frame, ds: seq<Observation>, dt: seq<int>, i: nat)
    requires IdsInv(st.tracks, st.nextId) && Table(dt, |st.tracks|) && |dt| == |ds|
    requires i < |Absorb(st, f, ds, dt).state.tracks|
    ensures
      var x, e := Absorb(st, f, ds, dt).state.tracks[i], DetIds(st.tracks, st.nextId, dt);
      if x.id in e then x.misses == 0
      else !Dead(st.cfg, x) && exists t :: 0 <= t < |st.tracks| && x == Missed(st.tracks[t])
  {
    var moved, born := Advance(st.cfg, st.tracks, ds, dt), Born(st.cfg, ds, dt, st.nextId, |ds|);
    var kept := Survivors(st.cfg, moved);
    var x := Absorb(st, f, ds, dt).state.tracks[i];
    assert Absorb(st, f, ds, dt).state.tracks == kept + born;
    hide Absorb, Survivors, Born, Advance, Dead, IdsInv, Table, Missed, DetIds;
    if i < |kept| {
      SurvivorsAmong(st.cfg, moved, x);
      var t :| 0 <= t < |moved| && moved[t] == x;
      AdvancedTrack(st.cfg, st.tracks, ds, dt, t);
      SeenIffMatched(st.tracks, st.nextId, dt, t);
    } else {
      BornSeen(st, ds, dt, i - |kept|);
    }
  }

  lemma BornSeen(st: State, ds: seq<Observation>, dt: seq<int>, i: nat)
    requires |dt| == |ds| && Table(dt, |st.tracks|) && i < |Born(st.cfg, ds, dt, st.nextId, |ds|)|
    ensures var x := Born(st.cfg, ds, dt, st.nextId, |ds|)[i]; x.misses == 0 && x.id in DetIds(st.tracks, st.nextId, dt)
  {
    var d := BornSource(st.cfg, ds, dt, st.nextId, |ds|, i);
    DetIdListed(st.tracks, st.nextId, dt, d);
    hide Born;
  }

  /** Every id seen in the frame is held after it. */
  lemma SeenIsHeld(st: State, f: Frame, ds: seq<Observation>, dt: seq<int>, id: int)
    requires IdsInv(st.tracks, st.nextId) && Table(dt, |st.tracks|) && |dt| == |ds|
    requires id in DetIds(st.tracks, st.nextId, dt)
    ensures HasId(Absorb(st, f, ds, dt).state.tracks, id)
  {
    var moved, born := Advance(st.cfg, st.tracks, ds, dt), Born(st.cfg, ds, dt, st.nextId, |ds|);
    var kept := Survivors(st.cfg, moved);
    var after := Absorb(st, f, ds, dt).state.tracks;
    assert after == kept + born;
    hide Absorb, Survivors, Born, Advance, IdsInv;
    var d :| 0 <= d < |dt| && DetId(st.tracks, st.nextId, dt, d) == id;
    if dt[d] >= 0 {
      var t := dt[d];
      AdvancedTrack(st.cfg, st.tracks, ds, dt, t);
      SurvivorsAmong(st.cfg, moved, moved[t]);
      KeptHasId(kept, born, moved[t]);
    } else {
      BornAt(st.cfg, ds, dt, st.nextId, d, |dt|);
      var x := born[Unmatched(dt, d)];
      assert x in born && x.id == id;
      KeptHasId(kept, born, x);
    }
  }

  lemma KeptHasId(kept: seq<Track>, born: seq<Track>, x: Track)
    requires x in kept || x in born
    ensures HasId(kept + born, x.id)
  {
    var after := kept + born;
    if x in kept {
      var i :| 0 <= i < |kept| && kept[i] == x;
      assert after[i] == x;
    } else {
      var i :| 0 <= i < |born| && born[i] == x;
      assert after[|kept| + i] == x;
    }
  }

  /** A track that misses the frame and is not dead by that is held after it. */
  lemma MissedIsHeld(st: State, f: Frame, ds: seq<Observation>, dt: seq<int>, t: nat)
    requires IdsInv(st.tracks, st.nextId) && Table(dt, |st.tracks|) && |dt| == |ds| && t < |st.tracks|
    requires st.tracks[t].id !in DetIds(st.tracks, st.nextId, dt) && !Dead(st.cfg, Missed(st.tracks[t]))
    ensures HasId(Absorb(st, f, ds, dt).state.tracks, st.tracks[t].id)
  {
    var moved, born := Advance(st.cfg, st.tracks, ds, dt), Born(st.cfg, ds, dt, st.nextId, |ds|);
    assert Absorb(st, f, ds, dt).state.tracks == Survivors(st.cfg, moved) + born;
    hide Absorb, Survivors, Born, Advance, IdsInv, Table, Dead, DetIds;
    SeenIffMatched(st.tracks, st.nextId, dt, t);
    AdvancedTrack(st.cfg, st.tracks, ds, dt, t);
    SurvivorsAmong(st.cfg, moved, moved[t]);
    KeptHasId(Survivors(st.cfg, moved), born, moved[t]);
  }

  // ----- the log and one more frame

  lemma LastSeenExtend(h: seq<seq<int>>, e: seq<int>, id: int)
    ensures LastSeen(h + [e], id) == if id in e then |h| else LastSeen(h, id)
  {
    assert (h + [e])[..|h|] == h;
  }

  lemma UnseenConfirmed(h: seq<seq<int>>, e: seq<int>, id: int, hits: nat)
    requires id !in e && LastSeen(h, id) >= 0 && hits >= 1
    ensures EverConfirmed(h + [e], id, hits) <==> EverConfirmed(h, id, hits)
  {
    BirthExtend(h, e, id);
    var g, b := h + [e], Birth(h, id);
    assert id in h[LastSeen(h, id)];
    assert b < |h|;
    assert forall k :: 0 <= k < |h| ==> g[k] == h[k];
    assert g[|h|] == e;
  }

  /** A held track counts the frames since its id was last seen, which was after the last reset. */
  ghost predicate Counts(h: seq<seq<int>>, reset: nat, t: Track) {
    LastSeen(h, t.id) >= reset && t.misses == |h| - 1 - LastSeen(h, t.id)
  }

  ghost predicate SurvivalInv(h: seq<seq<int>>, reset: nat, st: State) {
    && LogInv(h, st) && reset <= |h|
    && (forall i :: 0 <= i < |st.tracks| ==> Counts(h, reset, st.tracks[i]))
    && (forall id :: StillDue(h, reset, st.cfg, id) ==> HasId(st.tracks, id))
  }

  /** A held track was confirmed exactly if its id was ever matched often enough in a row from its birth. */
  lemma ConfirmedEver(h: seq<seq<int>>, cfg: Config, t: Track)
    requires TrackInv(h, cfg, t)
    ensures t.confirmed <==> EverConfirmed(h, t.id, cfg.confirmHits)
  {
  }

  /** In a state that keeps the invariant, exactly the ids still due are held. */
  lemma HeldIffDue(h: seq<seq<int>>, reset: nat, st: State, id: int)
    requires SurvivalInv(h, reset, st)
    ensures HasId(st.tracks, id) <==> StillDue(h, reset, st.cfg, id)
  {
    if HasId(st.tracks, id) {
      var i :| 0 <= i < |st.tracks| && st.tracks[i].id == id;
      LogMeans(h, st);
      assert Counts(h, reset, st.tracks[i]) && TrackInv(h, st.cfg, st.tracks[i]);
      ConfirmedEver(h, st.cfg, st.tracks[i]);
      hide LogInv, EverConfirmed, Birth, Streak;
    }
  }

  lemma CountsAfter(h: seq<seq<int>>, reset: nat, st: State, f: Frame, ds: seq<Observation>, dt: seq<int>, i: nat)
    requires SurvivalInv(h, reset, st) && Table(dt, |st.tracks|) && |dt| == |ds|
    requires i < |Absorb(st, f, ds, dt).state.tracks|
    ensures Counts(h + [DetIds(st.tracks, st.nextId, dt)], reset, Absorb(st, f, ds, dt).state.tracks[i])
  {
    hide LogInv, StillDue, Absorb, DetIds, Dead;
    LogMeans(h, st);
    var e := DetIds(st.tracks, st.nextId, dt);
    var x := Absorb(st, f, ds, dt).state.tracks[i];
    TrackOrigin(st, f, ds, dt, i);
    LastSeenExtend(h, e, x.id);
    if x.id !in e {
      var t :| 0 <= t < |st.tracks| && x == Missed(st.tracks[t]);
      assert Counts(h, reset, st.tracks[t]);
    }
  }

  lemma DueIsHeld(h: seq<seq<int>>, reset: nat, st: State, f: Frame, ds: seq<Observation>, dt: seq<int>, id: int)
    requires SurvivalInv(h, reset, st) && Table(dt, |st.tracks|) && |dt| == |ds| && st.cfg.confirmHits >= 1
    requires StillDue(h + [DetIds(st.tracks, st.nextId, dt)], reset, st.cfg, id)
    ensures HasId(Absorb(st, f, ds, dt).state.tracks, id)
  {
    LogMeans(h, st);
    hide LogInv, Absorb, DetIds, EverConfirmed, TrackInv, IdsInv, Table, Birth;
    var e := DetIds(st.tracks, st.nextId, dt);
    LastSeenExtend(h, e, id);
    if id in e {
      SeenIsHeld(st, f, ds, dt, id);
    } else {
      UnseenConfirmed(h, e, id, st.cfg.confirmHits);
      assert StillDue(h, reset, st.cfg, id);
      var t :| 0 <= t < |st.tracks| && st.tracks[t].id == id;
      ConfirmedEver(h, st.cfg, st.tracks[t]);
      assert Counts(h, reset, st.tracks[t]);
      MissedIsHeld(st, f, ds, dt, t);
    }
  }

  lemma FrameSurvival(h: seq<seq<int>>, reset: nat, st: State, f: Frame)
    requires SurvivalInv(h, reset, st)
    ensures SurvivalInv(h + [FrameIds(st, f)], reset, Update(st, f).state)
  {
    hide LogInv, Assoc, Confident, Absorb, Counts, StillDue, DetIds;
    LogMeans(h, st);
    FrameStep(h, st, f);
    var ds := Confident(st.cfg, f.obs);
    var dt := Assoc(st.cfg, st.tracks, ds);
    AssocIsTable(st.cfg, st.tracks, ds);
    var st' := Update(st, f).state;
    var h' := h + [FrameIds(st, f)];
    forall i | 0 <= i < |st'.tracks| ensures Counts(h', reset, st'.tracks[i]) {
      CountsAfter(h, reset, st, f, ds, dt, i);
    }
    forall id | StillDue(h', reset, st'.cfg, id) ensures HasId(st'.tracks, id) {
      DueIsHeld(h, reset, st, f, ds, dt, id);
    }
  }

  lemma ResetSurvival(h: seq<seq<int>>, st: State)
    requires LogInv(h, st)
    ensures SurvivalInv(h, |h|, st.(tracks := []))
  {
    ResetStep(h, st);
    LogMeans(h, st);
    hide LogInv;
  }

  lemma EmptySurvival(cfg: Config)
    requires cfg.confirmHits >= 1 && cfg.maxMisses >= 0
    ensures SurvivalInv([], 0, State(cfg, [], 1))
  {
    EmptyLog(cfg);
    hide LogInv;
  }

  lemma {:induction false} SurvivalHolds(cfg: Config, cmds: seq<Command>)
    requires FixedConfig(cmds)
    ensures SurvivalInv(Log(cfg, cmds), FramesAtReset(cfg, cmds), Execute(cfg, cmds).state)
    ensures Execute(cfg, cmds).state.cfg == Sanitize(cfg)
  {
    hide SurvivalInv, LogInv, Assoc, Confident, Update, FrameIds;
    LogHolds(cfg, cmds);
    if cmds == [] {
      EmptySurvival(Sanitize(cfg));
    } else {
      var front, last := cmds[..|cmds| - 1], cmds[|cmds| - 1];
      SurvivalHolds(cfg, front);
      LogHolds(cfg, front);
      if last.Feed? {
        FrameSurvival(Log(cfg, front), FramesAtReset(cfg, front), Execute(cfg, front).state, last.frame);
      } else {
        ResetSurvival(Log(cfg, front), Execute(cfg, front).state);
      }
    }
  }

  /** Exactly when an id is held, after every run with a fixed configuration: it was matched since the last
      reset, and since then it has missed at most max_misses frames in a row if it was ever confirmed, and
      none if it was not. So a confirmed track survives max_misses misses and is dropped on the next one. */
  lemma HeldExactly(cfg: Config, cmds: seq<Command>, id: int)
    requires FixedConfig(cmds)
    ensures HasId(Execute(cfg, cmds).state.tracks, id) <==>
            StillDue(Log(cfg, cmds), FramesAtReset(cfg, cmds), Sanitize(cfg), id)
  {
    hide SurvivalInv, StillDue, HasId, Execute, Log, FramesAtReset, Sanitize;
    SurvivalHolds(cfg, cmds);
    HeldIffDue(Log(cfg, cmds), FramesAtReset(cfg, cmds), Execute(cfg, cmds).state, id);
  }
}
