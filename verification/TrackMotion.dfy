/** How a track learns the motion of what it follows, and where it expects it next
    (helpers/track_manager.hpp:295-319). */
module TrackMotion {
  import opened Observations
  import opened Association
  import opened TrackStep

  function CentreX(b: Box): real {
    b.x + b.w / 2.0
  }

  function CentreY(b: Box): real {
    b.y + b.h / 2.0
  }

  /** Velocity times the frames since the track was last seen. */
  function Travel(v: real, frames: int): real {
    v * frames as real
  }

  /** The prediction keeps the size and moves by one velocity right away, and by one more for each missed frame. */
  lemma PredictionMoves(t: Track)
    ensures Predicted(t).w == t.w && Predicted(t).h == t.h
    ensures t.misses == 0 ==> Predicted(t).x == t.x + t.vx && Predicted(t).y == t.y + t.vy
    ensures Predicted(Missed(t)).x == Predicted(t).x + t.vx && Predicted(Missed(t)).y == Predicted(t).y + t.vy
    ensures Predicted(Missed(t)).w == t.w && Predicted(Missed(t)).h == t.h
  {
    var n := (t.misses + 1) as real;
    assert (t.misses + 2) as real == n + 1.0;
    assert t.vx * (n + 1.0) == t.vx * n + t.vx && t.vy * (n + 1.0) == t.vy * n + t.vy;
  }

  /** How far the detection's centre lies from the predicted one is what corrects the velocity, spread over
      the frames since the last match: by half of it while the track was matched before, in full after misses. */
  lemma DetectionCorrectsVelocity(t: Track, o: Observation)
    requires t.hits > 0 || t.misses > 0
    ensures
      var u, frames := Updated(t, o), t.misses + 1;
      var dx, dy := CentreX(BoxOf(o)) - CentreX(Predicted(t)), CentreY(BoxOf(o)) - CentreY(Predicted(t));
      && Travel(u.vx - t.vx, frames) == (if t.hits > 0 then dx / 2.0 else dx)
      && Travel(u.vy - t.vy, frames) == (if t.hits > 0 then dy / 2.0 else dy)
  {
    var n := (t.misses + 1) as real;
    var u := Updated(t, o);
    Smoothing(o.x + o.w * 0.5, t.x + t.w * 0.5, t.vx, n);
    Smoothing(o.y + o.h * 0.5, t.y + t.h * 0.5, t.vy, n);
  }

  lemma Smoothing(now: real, was: real, v: real, n: real)
    requires n > 0.0
    ensures var m := (now - was) / n;
            (m - v) * n == now - (was + v * n) && (0.5 * v + 0.5 * m - v) * n == (now - (was + v * n)) / 2.0
  {
    var m := (now - was) / n;
    assert m * n == now - was;
  }

  /** What else a match does: the box is that of the detection as it is, one more hit, no misses; identity
      and confirmation stay. A track's first detection leaves its velocity alone. */
  lemma MatchTakesBox(t: Track, o: Observation)
    ensures
      var u := Updated(t, o);
      && u.x == o.x && u.y == o.y && u.w == o.w && u.h == o.h
      && u.hits == t.hits + 1 && u.misses == 0 && u.id == t.id && u.cls == t.cls && u.confirmed == t.confirmed
      && (t.hits == 0 && t.misses == 0 ==> u.vx == t.vx && u.vy == t.vy)
  {
  }

  /** A detection exactly where it was expected leaves the velocity as it is, so steady motion is predicted
      exactly from then on. */
  lemma SteadyMotion(t: Track, o: Observation)
    requires t.hits > 0 || t.misses > 0
    requires BoxOf(o) == Predicted(t)
    ensures
      var u := Updated(t, o);
      && u.vx == t.vx && u.vy == t.vy
      && Predicted(u) == Box(Predicted(t).x + t.vx, Predicted(t).y + t.vy, t.w, t.h)
  {
    hide Updated, Predicted;
    var u := Updated(t, o);
    DetectionCorrectsVelocity(t, o);
    NoTravel(u.vx - t.vx, t.misses + 1);
    NoTravel(u.vy - t.vy, t.misses + 1);
    MatchTakesBox(t, o);
    PredictionMoves(u);
    PredictionMoves(t);
  }

  lemma NoTravel(v: real, frames: int)
    requires frames > 0
    ensures Travel(v, frames) == 0.0 <==> v == 0.0
  {
    assert Travel(v, frames) / frames as real == v;
  }

  /** A new track: standing still where it was detected, one hit, confirmed at once only if one hit is enough. */
  lemma NewbornStands(cfg: Config, id: int, o: Observation)
    ensures
      var t := Newborn(cfg, id, o);
      && t.id == id && t.cls == o.cls && t.hits == 1 && t.misses == 0
      && (t.confirmed <==> cfg.confirmHits <= 1)
      && Predicted(t) == BoxOf(o)
  {
  }

  /** A match confirms a track exactly when its hits in a row reach the required number; nothing unconfirms it. */
  lemma TouchConfirms(cfg: Config, t: Track, o: Observation)
    ensures
      var u := Touched(cfg, t, o);
      && (u.confirmed <==> t.confirmed || t.hits + 1 >= cfg.confirmHits)
      && u == Updated(t, o).(confirmed := u.confirmed)
  {
    hide Updated;
    MatchTakesBox(t, o);
  }

  // ----- what enters the tracker

  /** Exactly the detections of at least min_conf enter, in their order. */
  lemma ConfidentIs(cfg: Config, o: Observation, a: seq<Observation>, b: seq<Observation>)
    ensures Confident(cfg, []) == []
    ensures Confident(cfg, [o]) == if o.conf >= cfg.minConf then [o] else []
    ensures Confident(cfg, a + b) == Confident(cfg, a) + Confident(cfg, b)
  {
    assert [o][..0] == [];
    assert Confident(cfg, []) + [o] == [o];
    ConfidentConcat(cfg, a, b);
  }

  lemma {:induction false} ConfidentConcat(cfg: Config, a: seq<Observation>, b: seq<Observation>)
    ensures Confident(cfg, a + b) == Confident(cfg, a) + Confident(cfg, b)
  {
    if b == [] {
      assert a + b == a;
      assert Confident(cfg, a) + [] == Confident(cfg, a);
    } else {
      var front, last := b[..|b| - 1], b[|b| - 1];
      ConfidentConcat(cfg, a, front);
      assert (a + b)[..|a + b| - 1] == a + front;
    }
  }

  function Distance(a: real, b: real): real {
    if a < b then b - a else a - b
  }

  /** A sanitized configuration is the sound one nearest to what was given, field by field. */
  lemma SanitizeIsNearest(c: Config, hits: int, misses: int, threshold: real)
    requires hits >= 1 && misses >= 0 && 0.0 <= threshold <= 1.0
    ensures
      var r := Sanitize(c);
      && Distance(r.confirmHits as real, c.confirmHits as real) <= Distance(hits as real, c.confirmHits as real)
      && Distance(r.maxMisses as real, c.maxMisses as real) <= Distance(misses as real, c.maxMisses as real)
      && Distance(r.iouMin, c.iouMin) <= Distance(threshold, c.iouMin)
      && Distance(r.minConf, c.minConf) <= Distance(threshold, c.minConf)
  {
  }
}
