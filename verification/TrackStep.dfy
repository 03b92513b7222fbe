/** One frame of the track manager (helpers/track_manager.hpp:149-330) as a function of its state. */
module TrackStep {
  import opened Observations
  import opened ClassFilter
  import opened Association

  datatype State = State(cfg: Config, tracks: seq<Track>, nextId: int)

  function RealClamp(x: real): real { if x < 0.0 then 0.0 else if x > 1.0 then 1.0 else x }

  /** Lines 332-340. */
  function Sanitize(c: Config): (r: Config)
    ensures r.confirmHits >= 1 && r.maxMisses >= 0
    ensures 0.0 <= r.iouMin <= 1.0 && 0.0 <= r.minConf <= 1.0
    ensures c.confirmHits >= 1 ==> r.confirmHits == c.confirmHits
    ensures c.maxMisses >= 0 ==> r.maxMisses == c.maxMisses
    ensures 0.0 <= c.iouMin <= 1.0 ==> r.iouMin == c.iouMin
    ensures 0.0 <= c.minConf <= 1.0 ==> r.minConf == c.minConf
  {
    Config(if c.confirmHits < 1 then 1 else c.confirmHits, if c.maxMisses < 0 then 0 else c.maxMisses,
           RealClamp(c.iouMin), RealClamp(c.minConf))
  }

  function Init(cfg: Config): State {
    State(Sanitize(cfg), [], 1)
  }

  // ----- single tracks (lines 301-329)

  /** A track takes a detection: raw box, smoothed velocity, one more hit. */
  function Updated(t: Track, o: Observation): Track {
    var steps := (t.misses + 1) as real;
    var mvx := (o.x + o.w * 0.5 - (t.x + t.w * 0.5)) / steps;
    var mvy := (o.y + o.h * 0.5 - (t.y + t.h * 0.5)) / steps;
    var known := t.hits > 0 || t.misses > 0;
    var vx := if !known then t.vx else if t.hits > 0 then 0.5 * t.vx + 0.5 * mvx else mvx;
    var vy := if !known then t.vy else if t.hits > 0 then 0.5 * t.vy + 0.5 * mvy else mvy;
    Track(t.id, t.cls, o.x, o.y, o.w, o.h, vx, vy, t.hits + 1, 0, t.confirmed)
  }

  function Touched(cfg: Config, t: Track, o: Observation): Track {
    var u := Updated(t, o);
    if !u.confirmed && u.hits >= cfg.confirmHits then u.(confirmed := true) else u
  }

  function Missed(t: Track): Track {
    t.(misses := t.misses + 1, hits := 0)
  }

  predicate Dead(cfg: Config, t: Track) {
    t.misses != 0 && (!t.confirmed || t.misses > cfg.maxMisses)
  }

  /** Lines 233-237. */
  function Newborn(cfg: Config, id: int, o: Observation): Track {
    var u := Updated(Track(id, o.cls, 0.0, 0.0, 0.0, 0.0, 0.0, 0.0, 0, 0, false), o);
    if u.hits >= cfg.confirmHits then u.(confirmed := true) else u
  }

  // ----- lists

  function TrackClasses(ts: seq<Track>): seq<string> {
    seq(|ts|, i requires 0 <= i < |ts| => ts[i].cls)
  }

  function DetClasses(ds: seq<Observation>): seq<string> {
    seq(|ds|, i requires 0 <= i < |ds| => ds[i].cls)
  }

  function TracksOf(ts: seq<Track>, c: string): seq<Track> {
    Select(ts, Positions(TrackClasses(ts), c))
  }

  function DetsOf(ds: seq<Observation>, c: string): seq<Observation> {
    Select(ds, Positions(DetClasses(ds), c))
  }

  /** Lines 157-161. */
  function Confident(cfg: Config, obs: seq<Observation>): (ds: seq<Observation>)
    ensures forall d :: 0 <= d < |ds| ==> ds[d] in obs
  {
    if obs == [] then []
    else
      var last := obs[|obs| - 1];
      Confident(cfg, obs[..|obs| - 1]) + (if last.conf >= cfg.minConf then [last] else [])
  }

  /** The track of detection d after lines 173-210, or -1. */
  function AssocAt(cfg: Config, ts: seq<Track>, ds: seq<Observation>, d: nat): (t: int)
    requires d < |ds|
    ensures -1 <= t < |ts|
    ensures t >= 0 ==> ts[t].cls == ds[d].cls
  {
    var c := ds[d].cls;
    PlaceInClass(DetClasses(ds), c, d);
    var k := LocalAssoc(cfg, TracksOf(ts, c), DetsOf(ds, c))[PlaceOf(DetClasses(ds), c, d)];
    if k < 0 then -1 else Positions(TrackClasses(ts), c)[k]
  }

  function Assoc(cfg: Config, ts: seq<Track>, ds: seq<Observation>): (dt: seq<int>)
    ensures |dt| == |ds|
    ensures forall d :: 0 <= d < |ds| ==> dt[d] == AssocAt(cfg, ts, ds, d)
    ensures forall d :: 0 <= d < |ds| ==> -1 <= dt[d] < |ts|
  {
    seq(|ds|, d requires 0 <= d < |ds| => AssocAt(cfg, ts, ds, d))
  }

  /** No track is matched twice. */
  lemma AssocDistinct(cfg: Config, ts: seq<Track>, ds: seq<Observation>, d: nat, e: nat)
    requires d < e < |ds| && Assoc(cfg, ts, ds)[d] != -1
    ensures Assoc(cfg, ts, ds)[d] != Assoc(cfg, ts, ds)[e]
  {
    hide LocalAssoc;
    if Assoc(cfg, ts, ds)[d] == Assoc(cfg, ts, ds)[e] {
      var cs, c := DetClasses(ds), ds[d].cls;
      PlaceInClass(cs, c, d);
      PlaceInClass(cs, c, e);
    }
  }

  /** A table that matches no track twice, as Assoc does. */
  ghost predicate Table(dt: seq<int>, n: nat) {
    && (forall d :: 0 <= d < |dt| ==> -1 <= dt[d] < n)
    && (forall d, e :: 0 <= d < e < |dt| && dt[d] != -1 ==> dt[d] != dt[e])
  }

  lemma AssocIsTable(cfg: Config, ts: seq<Track>, ds: seq<Observation>)
    ensures Table(Assoc(cfg, ts, ds), |ts|)
  {
    hide AssocAt;
    forall d, e | 0 <= d < e < |ds| && Assoc(cfg, ts, ds)[d] != -1
      ensures Assoc(cfg, ts, ds)[d] != Assoc(cfg, ts, ds)[e]
    {
      AssocDistinct(cfg, ts, ds, d, e);
    }
  }

  /** The detection among the first k that was given to track t, or -1. */
  function DetOf(dt: seq<int>, t: nat, k: nat): (d: int)
    requires k <= |dt|
    ensures -1 <= d < k
    ensures d == -1 ==> forall e :: 0 <= e < k ==> dt[e] != t
    ensures d >= 0 ==> dt[d] == t
  {
    if k == 0 then -1 else if dt[k - 1] == t then k - 1 else DetOf(dt, t, k - 1)
  }

  /** Lines 212-226: matched tracks take their detection, the others miss. */
  function Advance(cfg: Config, ts: seq<Track>, ds: seq<Observation>, dt: seq<int>): (ts': seq<Track>)
    requires |dt| == |ds|
    ensures |ts'| == |ts|
    ensures forall t :: 0 <= t < |ts| ==> ts'[t].id == ts[t].id && ts'[t].cls == ts[t].cls
  {
    seq(|ts|, t requires 0 <= t < |ts| =>
      var d := DetOf(dt, t, |dt|); if d < 0 then Missed(ts[t]) else Touched(cfg, ts[t], ds[d]))
  }

  /** How many of the first k detections start a track. */
  function Unmatched(dt: seq<int>, k: nat): (n: nat)
    requires k <= |dt|
    ensures n <= k
  {
    if k == 0 then 0 else Unmatched(dt, k - 1) + (if dt[k - 1] < 0 then 1 else 0)
  }

  /** Lines 228-239. */
  function Born(cfg: Config, ds: seq<Observation>, dt: seq<int>, nextId: int, k: nat): (ts: seq<Track>)
    requires k <= |dt| == |ds|
    ensures |ts| == Unmatched(dt, k)
  {
    if k == 0 then []
    else
      Born(cfg, ds, dt, nextId, k - 1) +
      (if dt[k - 1] < 0 then [Newborn(cfg, nextId + Unmatched(dt, k - 1), ds[k - 1])] else [])
  }

  lemma {:induction false} UnmatchedMonotone(dt: seq<int>, a: nat, b: nat)
    requires a <= b <= |dt|
    ensures Unmatched(dt, a) <= Unmatched(dt, b)
  {
    if a < b {
      UnmatchedMonotone(dt, a, b - 1);
    }
  }

  lemma {:induction false} BornAt(cfg: Config, ds: seq<Observation>, dt: seq<int>, nextId: int, d: nat, k: nat)
    requires d < k <= |dt| == |ds| && dt[d] < 0
    ensures Unmatched(dt, d) < Unmatched(dt, k)
    ensures Born(cfg, ds, dt, nextId, k)[Unmatched(dt, d)] == Newborn(cfg, nextId + Unmatched(dt, d), ds[d])
  {
    hide Newborn;
    if d < k - 1 {
      BornAt(cfg, ds, dt, nextId, d, k - 1);
    }
  }

  function Labelled(o: Observation, id: int): Observation {
    o.(hasTrk := true, trk := id)
  }

  /** Lines 241-252: confirmed matched tracks, in detection order. */
  function Published(ts: seq<Track>, ds: seq<Observation>, dt: seq<int>, k: nat): (os: seq<Observation>)
    requires k <= |dt| == |ds| && forall d :: 0 <= d < |dt| ==> dt[d] < |ts|
  {
    if k == 0 then []
    else
      Published(ts, ds, dt, k - 1) +
      (if dt[k - 1] >= 0 && ts[dt[k - 1]].confirmed then [Labelled(ds[k - 1], ts[dt[k - 1]].id)] else [])
  }

  /** Lines 254-268: new tracks that are confirmed at once. */
  function PublishedBorn(born: seq<Track>, ds: seq<Observation>, dt: seq<int>, k: nat): (os: seq<Observation>)
    requires k <= |dt| == |ds| && Unmatched(dt, k) <= |born|
  {
    if k == 0 then []
    else
      PublishedBorn(born, ds, dt, k - 1) +
      (if dt[k - 1] < 0 && born[Unmatched(dt, k - 1)].confirmed
       then [Labelled(ds[k - 1], born[Unmatched(dt, k - 1)].id)] else [])
  }

  /** Lines 270-276. */
  function Survivors(cfg: Config, ts: seq<Track>): seq<Track> {
    if ts == [] then []
    else
      var last := ts[|ts| - 1];
      Survivors(cfg, ts[..|ts| - 1]) + (if Dead(cfg, last) then [] else [last])
  }

  datatype Outcome = Outcome(state: State, out: Frame)

  /** `update` on one frame, split after the association. */
  function Absorb(st: State, f: Frame, ds: seq<Observation>, dt: seq<int>): Outcome
    requires |dt| == |ds| && forall d :: 0 <= d < |dt| ==> dt[d] < |st.tracks|
  {
    var n := |ds|;
    var moved := Advance(st.cfg, st.tracks, ds, dt);
    var born := Born(st.cfg, ds, dt, st.nextId, n);
    Outcome(
      State(st.cfg, Survivors(st.cfg, moved) + born, st.nextId + Unmatched(dt, n)),
      Frame(f.camId, f.tmCapture, Published(moved, ds, dt, n) + PublishedBorn(born, ds, dt, n)))
  }

  function Update(st: State, f: Frame): Outcome {
    var ds := Confident(st.cfg, f.obs);
    Absorb(st, f, ds, Assoc(st.cfg, st.tracks, ds))
  }

  // ----- runs

  datatype Command = Feed(frame: Frame) | Reset | SetConfig(cfg: Config)

  /** State after a run and the frames it published, one for every frame fed. */
  datatype Run = Run(state: State, outs: seq<Frame>)

  function Execute(cfg: Config, cmds: seq<Command>): Run {
    if cmds == [] then Run(Init(cfg), [])
    else
      var r := Execute(cfg, cmds[..|cmds| - 1]);
      match cmds[|cmds| - 1]
      case Feed(f) => var o := Update(r.state, f); Run(o.state, r.outs + [o.out])
      case Reset => r.(state := r.state.(tracks := []))
      case SetConfig(c) => r.(state := r.state.(cfg := Sanitize(c)))
  }

  lemma ExecuteSnoc(cfg: Config, cmds: seq<Command>, cmd: Command)
    ensures var r := Execute(cfg, cmds);
            Execute(cfg, cmds + [cmd]) ==
            match cmd {
              case Feed(f) => Run(Update(r.state, f).state, r.outs + [Update(r.state, f).out])
              case Reset => r.(state := r.state.(tracks := []))
              case SetConfig(c) => r.(state := r.state.(cfg := Sanitize(c)))
            }
  {
    hide Update, Sanitize;
    assert (cmds + [cmd])[..|cmds|] == cmds;
  }
}
