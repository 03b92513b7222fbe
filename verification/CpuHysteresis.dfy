/** The board CPU monitor of de_databus/de_cpu_monitor.cpp: usage between two counter samples, and
    the two-state machine with thresholds and a sustain window. */
module CpuHysteresis {
  import opened Json

  const WORD := 0x1_0000_0000_0000_0000

  /** A 64-bit unsigned counter. */
  type Counter = x: int | 0 <= x < WORD

  datatype Times = Times(total: Counter, idleAll: Counter)

  datatype Config = Config(enabled: bool, superBusyPercent: Int32, freePercent: Int32, sustainS: Int32,
                           reportS: Int32, summaryS: Int32)
  {
    function SustainMs(): nat {
      (sustainS as int) % WORD * 1000 % WORD
    }
  }

  const DEFAULTS := Config(true, 90, 70, 5, 10, 60)

  datatype Transition = NoTransition | BecameSuperBusy | BecameFree

  // ----- usage

  /** `deCpuUsagePercent`: -1 when the total did not advance; differences wrap. */
  function UsagePercent(prev: Times, cur: Times): (usage: real)
    ensures usage == -1.0 || 0.0 <= usage <= 100.0
    ensures usage == -1.0 <==> cur.total <= prev.total
    ensures cur.total > prev.total && 0 <= cur.idleAll - prev.idleAll <= cur.total - prev.total ==>
              usage == Percent((cur.total - prev.total) - (cur.idleAll - prev.idleAll), cur.total - prev.total)
    ensures cur.total > prev.total && cur.idleAll - prev.idleAll > cur.total - prev.total ==> usage == 0.0
  {
    if cur.total <= prev.total then -1.0
    else
      var totalDelta: int := cur.total - prev.total;
      var idleDelta: int := (cur.idleAll - prev.idleAll) % WORD;
      var busyDelta: int := if idleDelta <= totalDelta then totalDelta - idleDelta else 0;
      InPercent(busyDelta, totalDelta);
      Percent(busyDelta, totalDelta)
  }

  /** 100 times the part over the whole. */
  function Percent(part: int, whole: int): real
    requires whole > 0
  {
    100.0 * part as real / whole as real
  }

  lemma InPercent(part: int, whole: int)
    requires 0 <= part <= whole && 0 < whole
    ensures 0.0 <= Percent(part, whole) <= 100.0
    ensures Percent(part, whole) * whole as real == 100.0 * part as real
  {
    var p, w := part as real, whole as real;
    assert 0.0 <= p <= w;
    Quotient(100.0 * p, w, 100.0);
  }

  lemma Quotient(x: real, w: real, bound: real)
    requires w > 0.0 && 0.0 <= x <= bound * w
    ensures 0.0 <= x / w <= bound && x / w * w == x
  {
    var q := x / w;
    assert q * w == x;
    assert (bound - q) * w >= 0.0;
  }

  // ----- the machine

  datatype Monitor = Monitor(config: Config, busy: bool, haveSample: bool, prev: Times, lastUsage: real,
                             pendingDir: int, pendingSinceMs: nat)

  function Init(config: Config): Monitor {
    Monitor(config, false, false, Times(0, 0), -1.0, 0, 0)
  }

  /** Does this usage press against the current state? */
  predicate Presses(config: Config, busy: bool, usage: real) {
    if busy then usage <= config.freePercent as real else usage >= config.superBusyPercent as real
  }

  /** `onUsage`. */
  function OnUsage(m: Monitor, usage: real, now: nat): (r: (Monitor, Transition)) {
    var dir := if m.busy then -1 else 1;
    if !Presses(m.config, m.busy, usage) then (m.(pendingDir := 0, pendingSinceMs := 0), NoTransition)
    else if m.pendingDir != dir then (m.(pendingDir := dir, pendingSinceMs := now), NoTransition)
    else
      var held := if now >= m.pendingSinceMs then now - m.pendingSinceMs else 0;
      if held < m.config.SustainMs() then (m, NoTransition)
      else (m.(busy := !m.busy, pendingDir := 0, pendingSinceMs := 0), if m.busy then BecameFree else BecameSuperBusy)
  }

  class CpuMonitor {
    var config: Config
    var busy: bool
    var haveSample: bool
    var prev: Times
    var lastUsage: real
    var pendingDir: int
    var pendingSinceMs: nat

    ghost function Value(): Monitor
      reads this
    {
      Monitor(config, busy, haveSample, prev, lastUsage, pendingDir, pendingSinceMs)
    }

    constructor (c: Config)
      ensures Value() == Init(c)
    {
      config, busy, haveSample, prev := c, false, false, Times(0, 0);
      lastUsage, pendingDir, pendingSinceMs := -1.0, 0, 0;
    }

    method Configure(c: Config)
      modifies this
      ensures Value() == Reconfigured(old(Value()), c)
    {
      config, pendingDir, pendingSinceMs := c, 0, 0;
    }

    method Usage(usage: real, now: nat) returns (t: Transition)
      modifies this
      ensures (Value(), t) == OnUsage(old(Value()), usage, now)
    {
      var want := 0;
      if !busy && usage >= config.superBusyPercent as real { want := 1; }
      if busy && usage <= config.freePercent as real { want := -1; }
      if want == 0 {
        pendingDir, pendingSinceMs := 0, 0;
        return NoTransition;
      }
      if pendingDir != want {
        pendingDir, pendingSinceMs := want, now;
        return NoTransition;
      }
      var held := if now >= pendingSinceMs then now - pendingSinceMs else 0;
      if held < config.SustainMs() { return NoTransition; }
      pendingDir, pendingSinceMs := 0, 0;
      busy := want > 0;
      t := if want > 0 then BecameSuperBusy else BecameFree;
    }

    method UpdateFromTimes(cur: Times, now: nat) returns (t: Transition)
      modifies this
      ensures (Value(), t) == Fed(old(Value()), cur, now)
    {
      if !haveSample {
        prev, haveSample := cur, true;
        return NoTransition;
      }
      var usage := UsagePercent(prev, cur);
      if usage < 0.0 { return NoTransition; }
      prev, lastUsage := cur, usage;
      t := Usage(usage, now);
    }
  }

  function Reconfigured(m: Monitor, c: Config): Monitor {
    m.(config := c, pendingDir := 0, pendingSinceMs := 0)
  }

  /** Is there a usage to process: not for the baseline, not when the counter did not advance. */
  predicate Processed(m: Monitor, cur: Times) {
    m.haveSample && UsagePercent(m.prev, cur) >= 0.0
  }

  /** `updateFromTimes`. */
  function Fed(m: Monitor, cur: Times, now: nat): (Monitor, Transition) {
    if !m.haveSample then (m.(prev := cur, haveSample := true), NoTransition)
    else if !Processed(m, cur) then (m, NoTransition)
    else
      var usage := UsagePercent(m.prev, cur);
      OnUsage(m.(prev := cur, lastUsage := usage), usage, now)
  }

  // ----- runs

  datatype Command = Feed(times: Times, now: nat) | Configure(config: Config)

  /** What was processed: a usage under the configuration and state of the moment, with its outcome, or
      a new configuration. */
  datatype Entry =
    | Sample(usage: real, now: nat, config: Config, busy: bool, out: Transition)
    | Configured

  datatype System = System(m: Monitor, trace: seq<Entry>, time: nat)

  function Step(x: System, cmd: Command): System {
    match cmd
    case Configure(c) => System(Reconfigured(x.m, c), x.trace + [Configured], x.time)
    case Feed(times, now) =>
      var (after, t) := Fed(x.m, times, now);
      System(after,
             if Processed(x.m, times)
               then x.trace + [Sample(UsagePercent(x.m.prev, times), now, x.m.config, x.m.busy, t)] else x.trace,
             now)
  }

  function Run(config: Config, cmds: seq<Command>): System {
    if cmds == [] then System(Init(config), [], 0) else Step(Run(config, cmds[..|cmds| - 1]), cmds[|cmds| - 1])
  }

  /** The monotonic clock does not run backwards. */
  predicate Ordered(cmds: seq<Command>) {
    forall i, j :: 0 <= i < j < |cmds| && cmds[i].Feed? && cmds[j].Feed? ==> cmds[i].now <= cmds[j].now
  }

  // ----- what a transition means

  /** A sample that presses against the given state without ending it. */
  predicate Pressing(e: Entry, busy: bool, config: Config) {
    e.Sample? && e.busy == busy && e.config == config && e.out == NoTransition && Presses(config, busy, e.usage)
  }

  /** All entries in [from..to) press. */
  predicate PressedThrough(trace: seq<Entry>, from: nat, to: nat, busy: bool, config: Config)
    requires to <= |trace|
  {
    forall k :: from <= k < to ==> Pressing(trace[k], busy, config)
  }

  /** A contiguous run of pressing samples ends just before `k`, and began at least the sustain time earlier. */
  ghost predicate Sustained(trace: seq<Entry>, k: nat)
    requires k < |trace| && trace[k].Sample?
  {
    exists from :: 0 <= from < k && PressedThrough(trace, from, k, trace[k].busy, trace[k].config)
                   && trace[k].now - trace[from].now >= trace[k].config.SustainMs()
  }

  /** Every processed sample: it makes a transition if and only if it presses and the pressure was sustained. */
  ghost predicate Hysteresis(trace: seq<Entry>) {
    forall k :: 0 <= k < |trace| && trace[k].Sample? ==>
      (trace[k].out != NoTransition <==> Presses(trace[k].config, trace[k].busy, trace[k].usage) && Sustained(trace, k))
  }

  /** The outcomes fit the states: the machine's state is what the last transition made it. */
  predicate StateAt(trace: seq<Entry>, k: nat)
    requires k <= |trace|
  {
    if k == 0 then false
    else match trace[k - 1] {
      case Sample(_, _, _, _, BecameSuperBusy) => true
      case Sample(_, _, _, _, BecameFree) => false
      case _ => StateAt(trace, k - 1)
    }
  }

  // ----- the invariant

  /** The pending window is the longest pressing suffix of what was processed. */
  ghost predicate PendingIs(m: Monitor, trace: seq<Entry>, p: nat) {
    && p <= |trace|
    && PressedThrough(trace, p, |trace|, m.busy, m.config)
    && (p > 0 ==> !Pressing(trace[p - 1], m.busy, m.config))
    && m.pendingDir == (if p == |trace| then 0 else if m.busy then -1 else 1)
    && (p < |trace| ==> m.pendingSinceMs == trace[p].now)
  }

  predicate Timed(trace: seq<Entry>, time: nat) {
    && (forall i :: 0 <= i < |trace| && trace[i].Sample? ==> trace[i].now <= time)
    && (forall i, j :: 0 <= i < j < |trace| && trace[i].Sample? && trace[j].Sample? ==> trace[i].now <= trace[j].now)
  }

  ghost predicate Inv(x: System) {
    && (exists p :: PendingIs(x.m, x.trace, p))
    && Timed(x.trace, x.time)
    && Hysteresis(x.trace)
    && x.m.busy == StateAt(x.trace, |x.trace|)
    && (forall k :: 0 <= k < |x.trace| && x.trace[k].Sample? ==>
      x.trace[k].busy == StateAt(x.trace, k) && Fits(x.trace[k]))
  }

  /** A transition leaves the state it was made in. */
  predicate Fits(e: Entry) {
    e.Sample? ==> (e.out == BecameSuperBusy ==> !e.busy) && (e.out == BecameFree ==> e.busy)
  }

  lemma {:induction false} StateAtPrefix(trace: seq<Entry>, e: Entry, k: nat)
    requires k <= |trace|
    ensures StateAt(trace + [e], k) == StateAt(trace, k)
  {
    if k > 0 {
      StateAtPrefix(trace, e, k - 1);
    }
  }

  /** A sustained pressure reaches back no further than the pending window. */
  lemma PendingIsLongest(m: Monitor, trace: seq<Entry>, p: nat, time: nat, e: Entry)
    requires PendingIs(m, trace, p) && Timed(trace, time)
    requires e.Sample? && e.config == m.config && e.busy == m.busy
    ensures Sustained(trace + [e], |trace|) ==>
      p < |trace| && trace[p].Sample? && e.now - trace[p].now >= m.config.SustainMs()
  {
    hide Presses;
    var longer := trace + [e];
    if Sustained(longer, |trace|) {
      var from :| 0 <= from < |trace| && PressedThrough(longer, from, |trace|, m.busy, m.config)
                  && e.now - longer[from].now >= m.config.SustainMs();
      assert Pressing(longer[from], m.busy, m.config) && longer[from] == trace[from];
      assert forall k :: from <= k < |trace| ==> longer[k] == trace[k] && Pressing(longer[k], m.busy, m.config);
      assert Pressing(trace[p], m.busy, m.config);
    }
  }

  /** What one more sample does, given the pending window. */
  lemma SampleOutcome(m: Monitor, trace: seq<Entry>, p: nat, time: nat, usage: real, now: nat)
    requires PendingIs(m, trace, p) && Timed(trace, time) && time <= now
    ensures var (after, t) := OnUsage(m, usage, now);
            var e := Sample(usage, now, m.config, m.busy, t);
            && (t != NoTransition <==> Presses(m.config, m.busy, usage) && Sustained(trace + [e], |trace|))
            && (exists q :: PendingIs(after, trace + [e], q))
  {
    var (after, t) := OnUsage(m, usage, now);
    var e := Sample(usage, now, m.config, m.busy, t);
    var longer := trace + [e];
    hide Presses;
    assert forall k :: 0 <= k < |trace| ==> longer[k] == trace[k];
    if t != NoTransition {
      assert PressedThrough(longer, p, |trace|, m.busy, m.config);
      assert PendingIs(after, longer, |longer|);
    } else if Presses(m.config, m.busy, usage) {
      assert PendingIs(after, longer, p);
      PendingIsLongest(m, trace, p, time, e);
    } else {
      assert PendingIs(after, longer, |longer|);
    }
  }

  lemma SustainedPrefix(trace: seq<Entry>, e: Entry, k: nat)
    requires k < |trace| && trace[k].Sample?
    ensures Sustained(trace + [e], k) == Sustained(trace, k)
  {
    var longer := trace + [e];
    hide Pressing;
    assert forall i :: 0 <= i < |trace| ==> longer[i] == trace[i];
    assert forall from :: 0 <= from < k ==>
      PressedThrough(longer, from, k, trace[k].busy, trace[k].config) ==
        PressedThrough(trace, from, k, trace[k].busy, trace[k].config);
  }

  lemma AppendKeeps(trace: seq<Entry>, time: nat, e: Entry, now: nat)
    requires Timed(trace, time) && time <= now && (e.Sample? ==> e.now == now)
    requires Hysteresis(trace)
    requires e.Sample? ==> (e.out != NoTransition <==>
      Presses(e.config, e.busy, e.usage) && Sustained(trace + [e], |trace|))
    ensures Timed(trace + [e], now) && Hysteresis(trace + [e])
  {
    hide Sustained, Presses;
    var longer := trace + [e];
    forall k | 0 <= k < |trace| && trace[k].Sample?
      ensures Sustained(longer, k) == Sustained(trace, k)
    {
      SustainedPrefix(trace, e, k);
    }
  }

  lemma StatesKept(trace: seq<Entry>, e: Entry)
    ensures forall k :: 0 <= k <= |trace| ==> StateAt(trace + [e], k) == StateAt(trace, k)
  {
    forall k | 0 <= k <= |trace| ensures StateAt(trace + [e], k) == StateAt(trace, k) {
      StateAtPrefix(trace, e, k);
    }
  }

  lemma FedPending(m: Monitor, cur: Times, usage: real, trace: seq<Entry>, p: nat)
    requires PendingIs(m, trace, p)
    ensures PendingIs(m.(prev := cur, lastUsage := usage), trace, p)
    ensures PendingIs(m.(prev := cur, haveSample := true), trace, p)
  {
  }

  lemma StepKeeps(x: System, cmd: Command)
    requires Inv(x) && (cmd.Feed? ==> x.time <= cmd.now)
    ensures Inv(Step(x, cmd))
  {
    hide Presses, Hysteresis, Timed, PendingIs, Sustained;
    var p :| PendingIs(x.m, x.trace, p);
    match cmd
    case Configure(c) =>
      AppendKeeps(x.trace, x.time, Configured, x.time);
      StatesKept(x.trace, Configured);
      ReconfiguredPending(x.m, c, x.trace);
    case Feed(times, now) =>
      var usage := UsagePercent(x.m.prev, times);
      FedPending(x.m, times, usage, x.trace, p);
      if Processed(x.m, times) {
        var m := x.m.(prev := times, lastUsage := usage);
        SampleOutcome(m, x.trace, p, x.time, usage, now);
        var t := OnUsage(m, usage, now).1;
        var e := Sample(usage, now, x.m.config, x.m.busy, t);
        AppendKeeps(x.trace, x.time, e, now);
        StatesKept(x.trace, e);
      } else {
        TimedLater(x.trace, x.time, now);
      }
  }

  lemma ReconfiguredPending(m: Monitor, c: Config, trace: seq<Entry>)
    ensures PendingIs(Reconfigured(m, c), trace + [Configured], |trace| + 1)
  {
  }

  lemma TimedLater(trace: seq<Entry>, time: nat, later: nat)
    requires Timed(trace, time) && time <= later
    ensures Timed(trace, later)
  {
  }

  lemma {:induction false} RunTime(config: Config, cmds: seq<Command>, later: nat)
    requires forall i :: 0 <= i < |cmds| && cmds[i].Feed? ==> cmds[i].now <= later
    ensures Run(config, cmds).time <= later
    decreases |cmds|
  {
    hide Fed, OnUsage, UsagePercent, Processed;
    if cmds != [] {
      RunTime(config, cmds[..|cmds| - 1], later);
    }
  }

  lemma {:induction false} RunInv(config: Config, cmds: seq<Command>)
    requires Ordered(cmds)
    ensures Inv(Run(config, cmds))
    decreases |cmds|
  {
    if cmds == [] {
      assert PendingIs(Init(config), [], 0);
    } else {
      hide Inv, Step;
      var front, last := cmds[..|cmds| - 1], cmds[|cmds| - 1];
      assert forall i :: 0 <= i < |front| ==> front[i] == cmds[i];
      RunInv(config, front);
      if last.Feed? { RunTime(config, front, last.now); }
      StepKeeps(Run(config, front), last);
    }
  }

  // ----- over whole runs

  /** Every processed sample of every run, with any reconfigurations: it makes a transition if and only
      if it and a contiguous run of samples before it, all under its configuration and in its state,
      press against the state for the sustain time; the state is what the last transition made it. */
  lemma TransitionsExactly(config: Config, cmds: seq<Command>)
    requires Ordered(cmds)
    ensures var trace := Run(config, cmds).trace;
            && Hysteresis(trace)
            && Run(config, cmds).m.busy == StateAt(trace, |trace|)
            && forall k :: 0 <= k < |trace| && trace[k].Sample? ==> trace[k].busy == StateAt(trace, k) && Fits(trace[k])
  {
    RunInv(config, cmds);
    hide Hysteresis, StateAt;
  }

  lemma {:induction false} QuietKeepsState(trace: seq<Entry>, i: nat, k: nat)
    requires i <= k <= |trace|
    requires forall j :: i <= j < k && trace[j].Sample? ==> trace[j].out == NoTransition
    ensures StateAt(trace, k) == StateAt(trace, i)
    decreases k
  {
    if i < k { QuietKeepsState(trace, i, k - 1); }
  }

  lemma StateAfter(trace: seq<Entry>, i: nat)
    requires i < |trace| && trace[i].Sample? && trace[i].out != NoTransition
    ensures StateAt(trace, i + 1) == trace[i].out.BecameSuperBusy?
  {
  }

  /** Transitions alternate: between two of the same kind there is one of the other, and the first is into busy. */
  lemma TransitionsAlternate(config: Config, cmds: seq<Command>, i: nat, k: nat)
    requires Ordered(cmds)
    requires var trace := Run(config, cmds).trace;
             i < k < |trace| && trace[i].Sample? && trace[k].Sample?
             && trace[i].out != NoTransition && trace[k].out != NoTransition
             && forall j :: i < j < k && trace[j].Sample? ==> trace[j].out == NoTransition
    ensures Run(config, cmds).trace[i].out != Run(config, cmds).trace[k].out
  {
    hide Run, Hysteresis, StateAt;
    TransitionsExactly(config, cmds);
    var trace := Run(config, cmds).trace;
    QuietKeepsState(trace, i + 1, k);
    StateAfter(trace, i);
  }

  lemma FirstIsBusy(config: Config, cmds: seq<Command>, k: nat)
    requires Ordered(cmds)
    requires var trace := Run(config, cmds).trace;
             k < |trace| && trace[k].Sample? && trace[k].out != NoTransition
             && forall j :: 0 <= j < k && trace[j].Sample? ==> trace[j].out == NoTransition
    ensures Run(config, cmds).trace[k].out == BecameSuperBusy
  {
    hide Run, Hysteresis;
    TransitionsExactly(config, cmds);
    QuietKeepsState(Run(config, cmds).trace, 0, k);
  }

  /** The sustain time in milliseconds: that of a negative configuration wraps to more than half a billion years. */
  lemma SustainInSeconds(c: Config)
    ensures c.sustainS >= 0 ==> c.SustainMs() == 1000 * c.sustainS
    ensures c.sustainS < 0 ==> c.SustainMs() == 0x1_0000_0000_0000_0000 + 1000 * c.sustainS
  {
  }

  /** An earlier sample under the configuration and in the state of a later one, with a usage at or beyond
      the threshold that ends this state. */
  predicate Holds(e: Entry, last: Entry)
    requires last.Sample?
  {
    && e.Sample? && e.out == NoTransition && e.busy == last.busy && e.config == last.config
    && (if last.busy then e.usage <= last.config.freePercent as real
        else e.usage >= last.config.superBusyPercent as real)
  }

  /** Such samples, one after the other, lead up to sample k over at least this many seconds. */
  ghost predicate HeldSeconds(trace: seq<Entry>, k: nat, seconds: int)
    requires k < |trace| && trace[k].Sample?
  {
    exists from :: 0 <= from < k && (forall j :: from <= j < k ==> Holds(trace[j], trace[k]))
                   && trace[k].now - trace[from].now >= 1000 * seconds
  }

  lemma SustainedIsHeld(trace: seq<Entry>, k: nat)
    requires k < |trace| && trace[k].Sample? && trace[k].config.sustainS >= 0
    ensures Sustained(trace, k) <==> HeldSeconds(trace, k, trace[k].config.sustainS)
  {
    var e := trace[k];
    SustainInSeconds(e.config);
    assert forall j :: 0 <= j < k ==> Pressing(trace[j], e.busy, e.config) == Holds(trace[j], e);
    hide Pressing, Holds;
    if from :| 0 <= from < k && PressedThrough(trace, from, k, e.busy, e.config)
               && e.now - trace[from].now >= e.config.SustainMs() {
      assert forall j :: from <= j < k ==> Holds(trace[j], e);
    }
    if from :| 0 <= from < k && (forall j :: from <= j < k ==> Holds(trace[j], e))
               && e.now - trace[from].now >= 1000 * e.config.sustainS {
      assert PressedThrough(trace, from, k, e.busy, e.config);
    }
  }

  /** The same in percent and seconds: a free board becomes super busy exactly with a usage of at least
      super_busy_percent after at least sustain_s seconds of such samples, and a busy one becomes free
      exactly with a usage of at most free_percent after as long. */
  lemma TransitionsInSeconds(config: Config, cmds: seq<Command>, k: nat)
    requires Ordered(cmds)
    requires var trace := Run(config, cmds).trace;
             k < |trace| && trace[k].Sample? && trace[k].config.sustainS >= 0
    ensures var trace := Run(config, cmds).trace;
            var e := trace[k];
            && (e.out == BecameSuperBusy <==>
                !e.busy && e.usage >= e.config.superBusyPercent as real && HeldSeconds(trace, k, e.config.sustainS))
            && (e.out == BecameFree <==>
                e.busy && e.usage <= e.config.freePercent as real && HeldSeconds(trace, k, e.config.sustainS))
  {
    hide Run, StateAt, Sustained, HeldSeconds;
    TransitionsExactly(config, cmds);
    SustainedIsHeld(Run(config, cmds).trace, k);
  }

  /** Two transitions are at least the sustain time of the later one apart, also across reconfigurations. */
  lemma TransitionsAreApart(config: Config, cmds: seq<Command>, i: nat, k: nat)
    requires Ordered(cmds)
    requires var trace := Run(config, cmds).trace;
             i < k < |trace| && trace[i].Sample? && trace[k].Sample?
             && trace[i].out != NoTransition && trace[k].out != NoTransition
    ensures var trace := Run(config, cmds).trace;
            && trace[k].now - trace[i].now >= trace[k].config.SustainMs()
            && (trace[k].config.sustainS >= 0 ==> trace[k].now - trace[i].now >= 1000 * trace[k].config.sustainS)
  {
    hide Run, Presses, StateAt;
    RunInv(config, cmds);
    var trace := Run(config, cmds).trace;
    SustainInSeconds(trace[k].config);
    assert Sustained(trace, k);
    var from :| 0 <= from < k && PressedThrough(trace, from, k, trace[k].busy, trace[k].config)
                && trace[k].now - trace[from].now >= trace[k].config.SustainMs();
    assert Pressing(trace[from], trace[k].busy, trace[k].config);
    assert from <= i ==> Pressing(trace[i], trace[k].busy, trace[k].config);
  }

  // ----- configuration

  /** Thresholds in range, and a proper dead band between them. */
  predicate Sound(c: Config) {
    && 0 <= c.freePercent < c.superBusyPercent <= 100
    && c.sustainS >= 1 && c.reportS >= 1 && c.summaryS >= 0
  }

  /** A numeric field, or what it stands at when absent or of another kind. */
  function Field(src: Json, key: string, otherwise: Int32): Int32 {
    if src.Has(key) && src.fields[key].IsNumber() then AsInt(src.fields[key]) else otherwise
  }

  /** The object's fields over the defaults, before they are judged. */
  function Proposed(src: Json): Config {
    Config(if src.Has("enabled") && src.fields["enabled"].Bool? then src.fields["enabled"].b else DEFAULTS.enabled,
           Field(src, "super_busy_percent", DEFAULTS.superBusyPercent),
             Field(src, "free_percent", DEFAULTS.freePercent),
           Field(src, "sustain_s", DEFAULTS.sustainS), Field(src, "report_s", DEFAULTS.reportS),
           Field(src, "summary_s", DEFAULTS.summaryS))
  }

  lemma NothingProposed()
    ensures Proposed(Obj(map[])) == Config(true, 90, 70, 5, 10, 60)
  {
  }

  /** Every key feeds its own field and no other; a fraction is cut off. */
  lemma ProposedFields(src: map<string, Json>, j: Json, b: bool)
    requires j.IsNumber()
    ensures var proposed := Proposed(Obj(src));
            && Proposed(Obj(src["enabled" := Bool(b)])) == proposed.(enabled := b)
            && Proposed(Obj(src["super_busy_percent" := j])) == proposed.(superBusyPercent := AsInt(j))
            && Proposed(Obj(src["free_percent" := j])) == proposed.(freePercent := AsInt(j))
            && Proposed(Obj(src["sustain_s" := j])) == proposed.(sustainS := AsInt(j))
            && Proposed(Obj(src["report_s" := j])) == proposed.(reportS := AsInt(j))
            && Proposed(Obj(src["summary_s" := j])) == proposed.(summaryS := AsInt(j))
  {
    hide AsInt;
  }

  /** A key with a value of another kind counts as absent, and other keys count for nothing. */
  lemma OthersIgnored(src: map<string, Json>, key: string, j: Json)
    requires key in {"enabled", "super_busy_percent", "free_percent", "sustain_s", "report_s", "summary_s"} ==>
      if key == "enabled" then !j.Bool? else !j.IsNumber()
    ensures Proposed(Obj(src[key := j])) == Proposed(Obj(src - {key}))
  {
    hide AsInt;
  }

  /** `deParseCpuMonitorConfig`: the configuration is sound whatever the object says; a sound proposal
      is taken whole, any other is dropped whole. */
  function ParseConfig(moduleConfig: Json): (c: Config)
    ensures Sound(c)
    ensures moduleConfig.Has("cpu_monitor") && moduleConfig.fields["cpu_monitor"].Obj? ==>
              var proposed := Proposed(moduleConfig.fields["cpu_monitor"]); Sound(proposed) ==> c == proposed
    ensures c == DEFAULTS || (moduleConfig.Has("cpu_monitor") && c == Proposed(moduleConfig.fields["cpu_monitor"]))
  {
    if !moduleConfig.Has("cpu_monitor") || !moduleConfig.fields["cpu_monitor"].Obj? then DEFAULTS
    else
      var cfg := Proposed(moduleConfig.fields["cpu_monitor"]);
      var badRange := cfg.superBusyPercent < 1 || cfg.superBusyPercent > 100 || cfg.freePercent < 0 ||
        cfg.freePercent > 100
                      || cfg.sustainS < 1 || cfg.reportS < 1 || cfg.summaryS < 0;
      if badRange || cfg.freePercent >= cfg.superBusyPercent then DEFAULTS else cfg
  }

  /** With sound thresholds no usage presses against both states, so after a transition the pressure
      has to build up anew on the other side of the dead band. */
  lemma DeadBand(c: Config, usage: real)
    requires Sound(c)
    ensures !(Presses(c, false, usage) && Presses(c, true, usage))
  {
  }
}
