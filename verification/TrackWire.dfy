/** The tracker between two ends of the wire: it reads parsed frames and its output is sent on. */
module TrackWire {
  import opened Basics
  import opened Json
  import opened Observations
  import opened Association
  import opened TrackStep
  import opened TrackLifecycle
  import ObsWire

  /** Whatever the tracker, in any state a run can reach, publishes for a parsed frame can be built, and
      is parsed back unchanged, as long as the 64-bit id counter has not run out. */
  lemma TrackedFrameTravels(cfg: Config, cmds: seq<Command>, ms: Json)
    requires ObsWire.ParseFrame(ms).Some?
    requires Update(Execute(cfg, cmds).state, ObsWire.ParseFrame(ms).value).state.nextId <= 0x8000_0000_0000_0000
    ensures var out := Update(Execute(cfg, cmds).state, ObsWire.ParseFrame(ms).value).out;
            ObsWire.FrameSendable(out) && ObsWire.ParseFrame(ObsWire.Wire(out)) == Some(out)
  {
    hide Execute, Update, IdsInv, ObsWire.ParseFrame, ObsWire.Wire;
    var st, f := Execute(cfg, cmds).state, ObsWire.ParseFrame(ms).value;
    var out := Update(st, f).out;
    ObsWire.ParsedBuilds(ms);
    ReachableIds(cfg, cmds);
    var src := PublishedAreRaw(cfg, cmds, f);
    var ds := Confident(st.cfg, f.obs);
    hide Confident, ObsWire.Sendable, ObsWire.Normal;
    forall i | 0 <= i < |out.obs|
      ensures ObsWire.Sendable(out.obs[i]) && ObsWire.InRange(out.obs[i]) && ObsWire.Normal(out.obs[i]) == out.obs[i]
    {
      PublishedInRange(st, f, i);
      assert ds[src[i]] in f.obs;
      LabelledTravels(ds[src[i]], out.obs[i].trk);
    }
    assert ObsWire.NormalFrame(out).obs == out.obs;
    ObsWire.BuiltParses(out);
  }

  lemma PublishedInRange(st: State, f: Frame, i: nat)
    requires IdsInv(st.tracks, st.nextId) && i < |Update(st, f).out.obs|
    ensures Update(st, f).out.obs[i].trk < Update(st, f).state.nextId
  {
    hide Update;
    var id := Update(st, f).out.obs[i].trk;
    assert Publishes(Update(st, f).out.obs, id);
    PublishedKnown(st, f, id);
    UpdateIds(st, f);
  }

  lemma LabelledTravels(o: Observation, id: int)
    requires ObsWire.Sendable(o) && ObsWire.InRange(o) && ObsWire.Normal(o) == o
    requires 0 <= id < 0x8000_0000_0000_0000
    ensures var l := Labelled(o, id); ObsWire.Sendable(l) && ObsWire.InRange(l) && ObsWire.Normal(l) == l
  {
  }
}
