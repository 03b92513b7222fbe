/** The unit CPU aggregator of de_databus/de_cpu_aggregator.cpp: a pruned two-level map of the latest
    reports, compared with the full log of reports. */
module CpuAggregation {
  import opened Basics
  import opened Json

  const BOARD_REMOVE_AFTER_MS := 60000
  const STATE_SUPER_BUSY := 1

  // ----- machine integers

  /** A signed configuration value cast to 64 unsigned bits. */
  function U64(n: int): nat {
    n % 0x1_0000_0000_0000_0000
  }

  // ----- data

  datatype ModuleReport = ModuleReport(u: int, pu: int, s: int, seenAtMs: nat)

  type Modules = map<Id, ModuleReport>

  datatype Config = Config(reportS: Int32, summaryS: Int32)
  {
    /** How old a report may be and still count. */
    function StaleWindowMs(): nat {
      3 * U64(reportS) * 1000 % 0x1_0000_0000_0000_0000
    }
  }

  datatype State = State(config: Config, boards: map<Id, Modules>, busy: bool, usage: int,
                         clockStarted: bool, lastSummaryMs: nat)

  /** What `tick` reports: a unit edge (into or out of busy), and whether a summary is due. */
  datatype Events = Events(becameBusy: bool, becameFree: bool, summaryDue: bool)

  function Init(config: Config): State {
    State(config, map[], false, 0, false, 0)
  }

  // ----- what the numbers mean

  predicate Fresh(r: ModuleReport, now: nat, window: nat) {
    now >= r.seenAtMs && now - r.seenAtMs <= window
  }

  predicate SomeFresh(modules: Modules, now: nat, window: nat) {
    exists m :: m in modules && Fresh(modules[m], now, window)
  }

  predicate BoardBusy(modules: Modules, now: nat, window: nat) {
    exists m :: m in modules && Fresh(modules[m], now, window) && modules[m].s == STATE_SUPER_BUSY
  }

  /** Silent for over a minute: every report is older than that. */
  predicate Expired(modules: Modules, now: nat) {
    now > BOARD_REMOVE_AFTER_MS && forall m :: m in modules ==> now > modules[m].seenAtMs + BOARD_REMOVE_AFTER_MS
  }

  /** The reports whose usage counts for a board: the fresh ones, or all of them on a stale board. */
  predicate Counts(modules: Modules, m: Id, now: nat, window: nat) {
    m in modules && (SomeFresh(modules, now, window) ==> Fresh(modules[m], now, window))
  }

  /** The largest of 0 and the usages that count. */
  ghost predicate IsBoardUsage(u: int, modules: Modules, now: nat, window: nat) {
    && u >= 0
    && (forall m :: Counts(modules, m, now, window) ==> modules[m].u <= u)
    && (u == 0 || exists m :: Counts(modules, m, now, window) && modules[m].u == u)
  }

  /** The largest of 0 and the boards' usages. */
  ghost predicate IsUnitUsage(u: int, boards: map<Id, Modules>, now: nat, window: nat) {
    && u >= 0
    && (forall b, v :: b in boards && IsBoardUsage(v, boards[b], now, window) ==> v <= u)
    && (u == 0 || exists b :: b in boards && IsBoardUsage(u, boards[b], now, window))
  }

  function Remaining(boards: map<Id, Modules>, now: nat): map<Id, Modules> {
    map b | b in boards && !Expired(boards[b], now) :: boards[b]
  }

  predicate AnyBusy(boards: map<Id, Modules>, now: nat, window: nat) {
    exists b :: b in boards && BoardBusy(boards[b], now, window)
  }

  // ----- the three operations as relations between states

  /** The board and the entry of a well-formed report. */
  function Parse(report: Json, now: nat): (entry: (Id, ModuleReport, bool)) {
    if && report.Has("bd") && report.fields["bd"].Str?
       && report.Has("u") && report.fields["u"].IsNumber()
       && report.Has("s") && report.fields["s"].IsNumber()
       && report.fields["bd"].s != ""
    then
      (Id(report.fields["bd"].s),
       ModuleReport(AsInt(report.fields["u"]),
                    if report.Has("pu") && report.fields["pu"].IsNumber() then AsInt(report.fields["pu"]) else -1,
                    AsInt(report.fields["s"]), now),
       true)
    else (Id(""), ModuleReport(0, -1, 0, 0), false)
  }

  /** A report with a board, a usage and a state is taken: whatever else it holds, these feed the fields of
      the entry, and a process usage that is no number is -1. */
  lemma ReportFields(report: map<string, Json>, board: string, u: Json, st: Json, pu: Json, now: nat)
    requires board != "" && u.IsNumber() && st.IsNumber()
    ensures Parse(Obj(report["bd" := Str(board)]["u" := u]["s" := st]["pu" := pu]), now) ==
            (Id(board), ModuleReport(AsInt(u), if pu.IsNumber() then AsInt(pu) else -1, AsInt(st), now), true)
    ensures Parse(Obj((report - {"pu"})["bd" := Str(board)]["u" := u]["s" := st]), now) ==
            (Id(board), ModuleReport(AsInt(u), -1, AsInt(st), now), true)
    ensures !Parse(Obj(report - {"bd"}), now).2 && !Parse(Obj(report["bd" := Str("")]), now).2
    ensures !Parse(Obj(report - {"u"}), now).2 && !Parse(Obj(report - {"s"}), now).2
  {
    hide AsInt;
  }

  function Store(boards: map<Id, Modules>, board: Id, m: Id, r: ModuleReport): map<Id, Modules> {
    boards[board := (if board in boards then boards[board] else map[])[m := r]]
  }

  ghost predicate Ticked(s: State, now: nat, s': State, events: Events) {
    var window := s.config.StaleWindowMs();
    var last := if s.clockStarted then s.lastSummaryMs else now;
    && s'.config == s.config && s'.clockStarted
    && s'.boards == Remaining(s.boards, now)
    && s'.busy == AnyBusy(s'.boards, now, window)
    && IsUnitUsage(s'.usage, s'.boards, now, window)
    && events.becameBusy == (s'.busy && !s.busy)
    && events.becameFree == (s.busy && !s'.busy)
    && events.summaryDue == (s.config.summaryS > 0 && now >= last && now - last >= U64(s.config.summaryS) * 1000)
    && s'.lastSummaryMs == if events.summaryDue then now else last
  }

  class CpuAggregator {
    var config: Config
    var boards: map<Id, Modules>
    var unitBusy: bool
    var unitUsage: int
    var clockStarted: bool
    var lastSummaryMs: nat

    ghost function Value(): State
      reads this
    {
      State(config, boards, unitBusy, unitUsage, clockStarted, lastSummaryMs)
    }

    constructor (c: Config)
      ensures Value() == Init(c)
    {
      config, boards, unitBusy, unitUsage, clockStarted, lastSummaryMs := c, map[], false, 0, false, 0;
    }

    method Configure(c: Config)
      modifies this
      ensures Value() == old(Value()).(config := c, clockStarted := false, lastSummaryMs := 0)
    {
      config, clockStarted, lastSummaryMs := c, false, 0;
    }

    method OnReport(moduleId: Id, report: Json, now: nat) returns (ok: bool)
      modifies this
      ensures ok == Parse(report, now).2
      ensures Value() == if ok
        then old(Value()).(boards := Store(old(boards), Parse(report, now).0, moduleId, Parse(report, now).1))
                         else old(Value())
    {
      if !report.Has("bd") || !report.fields["bd"].Str? || !report.Has("u") || !report.fields["u"].IsNumber()
         || !report.Has("s") || !report.fields["s"].IsNumber() {
        return false;
      }
      var boardId := report.fields["bd"].s;
      if boardId == "" { return false; }
      var pu := -1;
      if report.Has("pu") && report.fields["pu"].IsNumber() { pu := AsInt(report.fields["pu"]); }
      var entry := ModuleReport(AsInt(report.fields["u"]), pu, AsInt(report.fields["s"]), now);
      var modules := if Id(boardId) in boards then boards[Id(boardId)] else map[];
      boards := boards[Id(boardId) := modules[moduleId := entry]];
      ok := true;
    }

    /** `computeBoardStats`. */
    method ComputeBoardStats(modules: Modules, now: nat) returns (u: int, busy: bool, newest: nat)
      ensures IsBoardUsage(u, modules, now, config.StaleWindowMs())
      ensures busy == BoardBusy(modules, now, config.StaleWindowMs())
      ensures now > newest + BOARD_REMOVE_AFTER_MS <==> Expired(modules, now)
    {
      var window := config.StaleWindowMs();
      u, busy, newest := 0, false, 0;
      var sawFresh, staleMax := false, 0;
      var rest := modules.Keys;
      while rest != {}
        invariant rest <= modules.Keys
        invariant u >= 0 && staleMax >= 0
        invariant sawFresh <==> exists m :: m in modules.Keys - rest && Fresh(modules[m], now, window)
        invariant forall m :: m in modules.Keys - rest ==> modules[m].u <= staleMax && modules[m].seenAtMs <= newest
        invariant staleMax == 0 || exists m :: m in modules.Keys - rest && modules[m].u == staleMax
        invariant newest == 0 || exists m :: m in modules.Keys - rest && modules[m].seenAtMs == newest
        invariant forall m :: m in modules.Keys - rest && Fresh(modules[m], now, window) ==> modules[m].u <= u
        invariant u == 0 || exists m :: m in modules.Keys - rest && Fresh(modules[m], now, window) && modules[m].u == u
        invariant busy <==>
          exists m :: m in modules.Keys - rest && Fresh(modules[m], now, window) && modules[m].s == STATE_SUPER_BUSY
      {
        var m :| m in rest;
        var r := modules[m];
        rest := rest - {m};
        assert m in modules.Keys - rest;
        if r.seenAtMs > newest { newest := r.seenAtMs; }
        if r.u > staleMax { staleMax := r.u; }
        if Fresh(r, now, window) {
          sawFresh := true;
          if r.u > u { u := r.u; }
          if r.s == STATE_SUPER_BUSY { busy := true; }
        }
      }
      assert modules.Keys - rest == modules.Keys;
      assert sawFresh == SomeFresh(modules, now, window);
      if !sawFresh { u := staleMax; }
    }

    /** The loop of `tick`: drop boards silent for over a minute, fold the rest into the unit figures. */
    method FoldBoards(now: nat) returns (usage: int, anyBusy: bool)
      modifies this`boards
      ensures boards == Remaining(old(boards), now)
      ensures IsUnitUsage(usage, boards, now, config.StaleWindowMs())
      ensures anyBusy == AnyBusy(boards, now, config.StaleWindowMs())
    {
      hide IsBoardUsage, BoardBusy, Expired, IsUnitUsage, AnyBusy;
      ghost var was, done: map<Id, Modules> := boards, map[];
      ghost var window := config.StaleWindowMs();
      usage, anyBusy := 0, false;
      NoBoards(now, window);
      var rest := boards.Keys;
      while rest != {}
        invariant rest <= was.Keys && done.Keys !! rest && done.Keys <= was.Keys
        invariant boards == map b | b in was && (b in rest || b in done) :: was[b]
        invariant done == map b | b in was && b !in rest && !Expired(was[b], now) :: was[b]
        invariant IsUnitUsage(usage, done, now, window) && anyBusy == AnyBusy(done, now, window)
      {
        var b :| b in rest;
        var u, busy, newest := ComputeBoardStats(boards[b], now);
        rest := rest - {b};
        if now >= newest && now - newest > BOARD_REMOVE_AFTER_MS {
          boards := boards - {b};
        } else {
          OneMoreBoard(done, b, boards[b], u, usage, now, window);
          done := done[b := boards[b]];
          if u > usage { usage := u; }
          if busy { anyBusy := true; }
        }
      }
      assert done == Remaining(was, now);
      assert boards == done;
    }

    method Tick(now: nat) returns (events: Events)
      modifies this
      ensures Ticked(old(Value()), now, Value(), events)
    {
      hide IsUnitUsage, AnyBusy, Remaining;
      if !clockStarted {
        clockStarted, lastSummaryMs := true, now;
      }
      var usage, anyBusy := FoldBoards(now);
      unitUsage := usage;
      events := Events(anyBusy && !unitBusy, unitBusy && !anyBusy, false);
      unitBusy := anyBusy;
      if config.summaryS > 0 && now >= lastSummaryMs && now - lastSummaryMs >= U64(config.summaryS) * 1000 {
        lastSummaryMs := now;
        events := events.(summaryDue := true);
      }
    }
  }

  lemma NoBoards(now: nat, window: nat)
    ensures IsUnitUsage(0, map[], now, window) && !AnyBusy(map[], now, window)
  {
  }

  lemma OneMoreBoard(done: map<Id, Modules>, b: Id, modules: Modules, u: int, usage: int, now: nat, window: nat)
    requires b !in done && IsBoardUsage(u, modules, now, window) && IsUnitUsage(usage, done, now, window)
    ensures IsUnitUsage(if u > usage then u else usage, done[b := modules], now, window)
    ensures AnyBusy(done[b := modules], now, window) == (AnyBusy(done, now, window) || BoardBusy(modules, now, window))
  {
    hide BoardBusy;
    UsageIsUnique(u, modules, now, window);
    hide IsBoardUsage;
    var after := done[b := modules];
    assert after[b] == modules && forall c :: c in done ==> after[c] == done[c];
  }

  lemma UsageIsUnique(u: int, modules: Modules, now: nat, window: nat)
    requires IsBoardUsage(u, modules, now, window)
    ensures u >= 0 && forall v :: IsBoardUsage(v, modules, now, window) ==> v == u
  {
    hide Counts;
  }

  // ----- runs

  datatype Command = Configure(config: Config) | Report(moduleId: Id, report: Json, now: nat) | Tick(now: nat)

  /** An accepted report in the full log. */
  datatype Entry = Entry(board: Id, moduleId: Id, report: ModuleReport)

  /** A state, the full log of accepted reports, the unit edges so far and the time of the last command. */
  datatype System = System(s: State, log: seq<Entry>, edges: seq<bool>, time: nat)

  function TimeOf(cmd: Command, time: nat): nat {
    match cmd
    case Configure(_) => time
    case Report(_, _, now) => now
    case Tick(now) => now
  }

  /** One command with a clock that does not run backwards. */
  ghost predicate Step(x: System, cmd: Command, x': System) {
    && x'.time == TimeOf(cmd, x.time) && x.time <= x'.time
    && match cmd {
      case Configure(c) =>
        x'.s == x.s.(config := c, clockStarted := false, lastSummaryMs := 0) && x'.log == x.log && x'.edges == x.edges
      case Report(moduleId, report, now) =>
        var e := Parse(report, now);
        && x'.edges == x.edges
        && x'.s == (if e.2 then x.s.(boards := Store(x.s.boards, e.0, moduleId, e.1)) else x.s)
        && x'.log == (if e.2 then x.log + [Entry(e.0, moduleId, e.1)] else x.log)
      case Tick(now) =>
        exists events ::
          && Ticked(x.s, now, x'.s, events) && x'.log == x.log
          && x'.edges == x.edges + (if events.becameBusy then [true] else []) +
            (if events.becameFree then [false] else [])
    }
  }

  /** The systems a run of commands can pass through, starting from a fresh aggregator. */
  ghost predicate Run(cmds: seq<Command>, xs: seq<System>, config: Config) {
    && |xs| == |cmds| + 1
    && xs[0] == System(Init(config), [], [], 0)
    && forall i :: 0 <= i < |cmds| ==> Step(xs[i], cmds[i], xs[i + 1])
  }

  // ----- the log

  /** The latest report of a module about a board. */
  function Latest(log: seq<Entry>, board: Id, moduleId: Id): Option<ModuleReport> {
    if log == [] then None
    else
      var e := log[|log| - 1];
      if e.board == board && e.moduleId == moduleId then Some(e.report) else Latest(log[..|log| - 1], board, moduleId)
  }

  /** Some module's latest report says busy and is fresh. */
  ghost predicate LogBusy(log: seq<Entry>, now: nat, window: nat) {
    exists b, m :: Latest(log, b, m).Some? && Fresh(Latest(log, b, m).value, now, window) &&
      Latest(log, b, m).value.s == STATE_SUPER_BUSY
  }

  lemma LatestSnoc(log: seq<Entry>, e: Entry, board: Id, moduleId: Id)
    ensures Latest(log + [e], board, moduleId) ==
            if e.board == board && e.moduleId == moduleId then Some(e.report) else Latest(log, board, moduleId)
  {
    assert (log + [e])[..|log|] == log;
  }

  predicate Known(boards: map<Id, Modules>, b: Id, m: Id) {
    b in boards && m in boards[b]
  }

  /** The map holds latest reports only, and every latest report at most a minute old. */
  ghost predicate Agrees(boards: map<Id, Modules>, log: seq<Entry>, time: nat) {
    && (forall b, m :: Known(boards, b, m) ==> Latest(log, b, m) == Some(boards[b][m]))
    && (forall b, m :: Latest(log, b, m).Some? ==> Latest(log, b, m).value.seenAtMs <= time)
    && (forall b, m :: Latest(log, b, m).Some? && Latest(log, b, m).value.seenAtMs + BOARD_REMOVE_AFTER_MS >= time ==>
          Known(boards, b, m))
  }

  lemma StoreAgrees(boards: map<Id, Modules>, log: seq<Entry>, time: nat, e: Entry)
    requires Agrees(boards, log, time) && e.report.seenAtMs >= time
    ensures Agrees(Store(boards, e.board, e.moduleId, e.report), log + [e], e.report.seenAtMs)
  {
    hide Latest;
    forall b, m
      ensures Latest(log + [e], b, m) == if e.board == b && e.moduleId == m then Some(e.report) else Latest(log, b, m)
    {
      LatestSnoc(log, e, b, m);
    }
    var after := Store(boards, e.board, e.moduleId, e.report);
    assert forall b, m :: Known(after, b, m) <==> Known(boards, b, m) || (b == e.board && m == e.moduleId);
  }

  lemma TickAgrees(boards: map<Id, Modules>, log: seq<Entry>, time: nat, now: nat)
    requires Agrees(boards, log, time) && now >= time
    ensures Agrees(Remaining(boards, now), log, now)
  {
    hide Latest;
    var after := Remaining(boards, now);
    forall b, m | Latest(log, b, m).Some? && Latest(log, b, m).value.seenAtMs + BOARD_REMOVE_AFTER_MS >= now
      ensures Known(after, b, m)
    {
      assert Known(boards, b, m);
      assert !Expired(boards[b], now);
    }
    assert forall b, m :: Known(after, b, m) ==> Known(boards, b, m) && after[b][m] == boards[b][m];
  }

  lemma StepAgrees(x: System, cmd: Command, x': System)
    requires Agrees(x.s.boards, x.log, x.time) && Step(x, cmd, x')
    ensures Agrees(x'.s.boards, x'.log, x'.time)
  {
    hide Agrees, Latest, Remaining, Store, Parse;
    match cmd
    case Configure(_) =>
    case Report(moduleId, report, now) =>
      var e := Parse(report, now);
      ParsedTime(report, now);
      if e.2 { StoreAgrees(x.s.boards, x.log, x.time, Entry(e.0, moduleId, e.1)); }
      else { LaterAgrees(x.s.boards, x.log, x.time, now); }
    case Tick(now) =>
      TickAgrees(x.s.boards, x.log, x.time, now);
  }

  lemma ParsedTime(report: Json, now: nat)
    ensures Parse(report, now).2 ==> Parse(report, now).1.seenAtMs == now
  {
  }

  lemma LaterAgrees(boards: map<Id, Modules>, log: seq<Entry>, time: nat, later: nat)
    requires Agrees(boards, log, time) && later >= time
    ensures Agrees(boards, log, later)
  {
    hide Latest;
  }

  lemma {:induction false} RunAgrees(cmds: seq<Command>, xs: seq<System>, config: Config, k: nat)
    requires Run(cmds, xs, config) && k <= |cmds|
    ensures Agrees(xs[k].s.boards, xs[k].log, xs[k].time)
  {
    hide Step;
    if k == 0 {
      assert xs[0].log == [];
    } else {
      hide Agrees;
      RunAgrees(cmds, xs, config, k - 1);
      assert Step(xs[k - 1], cmds[k - 1], xs[k]);
      StepAgrees(xs[k - 1], cmds[k - 1], xs[k]);
    }
  }

  /** Within the minute, the pruned map answers as the log does. */
  lemma AgreeingBusy(boards: map<Id, Modules>, log: seq<Entry>, now: nat, window: nat)
    requires Agrees(boards, log, now) && window <= BOARD_REMOVE_AFTER_MS
    ensures AnyBusy(boards, now, window) <==> LogBusy(log, now, window)
  {
    hide Latest;
    if AnyBusy(boards, now, window) {
      var b :| b in boards && BoardBusy(boards[b], now, window);
      var m :| m in boards[b] && Fresh(boards[b][m], now, window) && boards[b][m].s == STATE_SUPER_BUSY;
      assert Known(boards, b, m);
    }
    if LogBusy(log, now, window) {
      var b, m :| Latest(log, b, m).Some? && Fresh(Latest(log, b, m).value, now, window) &&
        Latest(log, b, m).value.s == STATE_SUPER_BUSY;
      assert Known(boards, b, m);
      assert BoardBusy(boards[b], now, window);
    }
  }

  /** After every tick of every run, under any reconfigurations: while the stale window is at most a
      minute, the unit is busy exactly when the full log says so. */
  lemma UnitFollowsLog(cmds: seq<Command>, xs: seq<System>, config: Config, k: nat)
    requires Run(cmds, xs, config) && k < |cmds| && cmds[k].Tick?
    requires xs[k].s.config.StaleWindowMs() <= BOARD_REMOVE_AFTER_MS
    ensures xs[k + 1].s.busy <==> LogBusy(xs[k + 1].log, cmds[k].now, xs[k].s.config.StaleWindowMs())
  {
    hide Agrees, LogBusy, AnyBusy, Remaining;
    RunAgrees(cmds, xs, config, k + 1);
    assert Step(xs[k], cmds[k], xs[k + 1]);
    AgreeingBusy(xs[k + 1].s.boards, xs[k + 1].log, cmds[k].now, xs[k].s.config.StaleWindowMs());
  }

  /** The latest report of this module about this board says 1, and is at most so many milliseconds old. */
  predicate SaysBusy(log: seq<Entry>, board: Id, moduleId: Id, now: nat, age: int) {
    match Latest(log, board, moduleId)
    case None => false
    case Some(r) => r.s == 1 && r.seenAtMs <= now <= r.seenAtMs + age
  }

  ghost predicate SomeSaysBusy(log: seq<Entry>, now: nat, age: int) {
    exists b, m :: SaysBusy(log, b, m, now, age)
  }

  /** In seconds: up to report_s 20, the unit is busy exactly when the latest report of some module about
      some board says 1 and is at most three times report_s seconds old. */
  lemma UnitBusyInSeconds(cmds: seq<Command>, xs: seq<System>, config: Config, k: nat)
    requires Run(cmds, xs, config) && k < |cmds| && cmds[k].Tick?
    requires 0 <= xs[k].s.config.reportS <= 20
    ensures xs[k + 1].s.busy <==>
            SomeSaysBusy(xs[k + 1].log, cmds[k].now, 3000 * xs[k].s.config.reportS)
  {
    hide Step, Latest;
    var log, now, window := xs[k + 1].log, cmds[k].now, xs[k].s.config.StaleWindowMs();
    assert window == 3000 * xs[k].s.config.reportS;
    UnitFollowsLog(cmds, xs, config, k);
    hide Run;
    if LogBusy(log, now, window) {
      var b, m :| Latest(log, b, m).Some? && Fresh(Latest(log, b, m).value, now, window) &&
        Latest(log, b, m).value.s == STATE_SUPER_BUSY;
      assert SaysBusy(log, b, m, now, window);
    }
    if b, m :| SaysBusy(log, b, m, now, window) {
      assert Latest(log, b, m).Some? && Fresh(Latest(log, b, m).value, now, window);
    }
  }

  /** A summary is due at a tick exactly when summaries are wanted and their time has passed since the last
      one, or since the first tick; times are then counted from this one. */
  lemma SummaryDueIff(s: State, now: nat, s': State, events: Events)
    requires Ticked(s, now, s', events)
    ensures events.summaryDue <==>
            s.clockStarted && s.config.summaryS > 0 && now >= s.lastSummaryMs + 1000 * s.config.summaryS
    ensures s'.lastSummaryMs == if events.summaryDue || !s.clockStarted then now else s.lastSummaryMs
  {
    hide Remaining, AnyBusy, IsUnitUsage;
  }

  /** A run that ends in a tick follows the log at that tick. */
  ghost predicate EndsAgreeing(cmds: seq<Command>, xs: seq<System>, window: nat)
    requires |xs| == |cmds| + 1
  {
    cmds != [] && cmds[|cmds| - 1].Tick? ==>
      (xs[|cmds|].s.busy <==> LogBusy(xs[|cmds|].log, xs[|cmds|].time, window))
  }

  predicate NoConfigure(cmds: seq<Command>) {
    forall i :: 0 <= i < |cmds| ==> !cmds[i].Configure?
  }

  lemma {:induction false} ConfigStays(cmds: seq<Command>, xs: seq<System>, config: Config, k: nat)
    requires Run(cmds, xs, config) && NoConfigure(cmds) && k <= |cmds|
    ensures xs[k].s.config == config
  {
    hide Remaining, AnyBusy, IsUnitUsage, Parse, Store;
    if k > 0 {
      ConfigStays(cmds, xs, config, k - 1);
      assert Step(xs[k - 1], cmds[k - 1], xs[k]);
    }
  }

  /** A busy report at time 0, and a tick just after the board has been silent for a minute. */
  function BusyReport(): Json {
    Obj(map["bd" := Str("b"), "u" := Int(100), "s" := Int(1)])
  }

  function Silence(): seq<Command> {
    [Report(Id("m"), BusyReport(), 0), Tick(BOARD_REMOVE_AFTER_MS + 1)]
  }

  function SilenceRun(config: Config): seq<System> {
    var entry := ModuleReport(100, -1, 1, 0);
    var log := [Entry(Id("b"), Id("m"), entry)];
    [System(Init(config), [], [], 0),
     System(Init(config).(boards := map[Id("b") := map[Id("m") := entry]]), log, [], 0),
     System(Init(config).(clockStarted := true, lastSummaryMs := BOARD_REMOVE_AFTER_MS + 1), log, [],
            BOARD_REMOVE_AFTER_MS + 1)]
  }

  lemma SilenceIsRun(config: Config)
    ensures Run(Silence(), SilenceRun(config), config)
  {
    var xs := SilenceRun(config);
    var entry := ModuleReport(100, -1, 1, 0);
    assert Parse(BusyReport(), 0) == (Id("b"), entry, true);
    assert Store(map[], Id("b"), Id("m"), entry) == map[Id("b") := map[Id("m") := entry]];
    assert Step(xs[0], Silence()[0], xs[1]) by {
      assert [] + [Entry(Id("b"), Id("m"), entry)] == xs[1].log;
    }
    var now := BOARD_REMOVE_AFTER_MS + 1;
    assert Expired(xs[1].s.boards[Id("b")], now);
    assert Remaining(xs[1].s.boards, now) == map[];
    var events := Events(false, false, false);
    assert Ticked(xs[1].s, now, xs[2].s, events);
    assert xs[2].edges == xs[1].edges + [] + [];
  }

  /** The exact condition on the configuration: every run without reconfiguration agrees with the log
      after each of its ticks if and only if the stale window is at most the minute after which boards
      are dropped. */
  lemma AgreesIff(config: Config)
    ensures (forall cmds, xs :: Run(cmds, xs, config) && NoConfigure(cmds) ==>
      |xs| == |cmds| + 1 && EndsAgreeing(cmds, xs, config.StaleWindowMs()))
            <==> config.StaleWindowMs() <= BOARD_REMOVE_AFTER_MS
  {
    hide Run, EndsAgreeing;
    if config.StaleWindowMs() <= BOARD_REMOVE_AFTER_MS {
      forall cmds, xs | Run(cmds, xs, config) && NoConfigure(cmds)
        ensures |xs| == |cmds| + 1 && EndsAgreeing(cmds, xs, config.StaleWindowMs())
      {
        RunEndsAgreeing(cmds, xs, config);
      }
    } else {
      SilenceIsRun(config);
      SilenceDisagrees(config);
    }
  }

  lemma RunEndsAgreeing(cmds: seq<Command>, xs: seq<System>, config: Config)
    requires Run(cmds, xs, config) && NoConfigure(cmds) && config.StaleWindowMs() <= BOARD_REMOVE_AFTER_MS
    ensures |xs| == |cmds| + 1 && EndsAgreeing(cmds, xs, config.StaleWindowMs())
  {
    hide LogBusy, AnyBusy, Remaining;
    if cmds != [] && cmds[|cmds| - 1].Tick? {
      var k := |cmds| - 1;
      ConfigStays(cmds, xs, config, k);
      UnitFollowsLog(cmds, xs, config, k);
      assert Step(xs[k], cmds[k], xs[k + 1]);
    }
  }

  lemma SilenceDisagrees(config: Config)
    requires config.StaleWindowMs() > BOARD_REMOVE_AFTER_MS
    ensures !EndsAgreeing(Silence(), SilenceRun(config), config.StaleWindowMs())
  {
    var x := SilenceRun(config)[2];
    assert Latest(x.log, Id("b"), Id("m")) == Some(ModuleReport(100, -1, 1, 0));
    assert Fresh(ModuleReport(100, -1, 1, 0), x.time, config.StaleWindowMs());
  }

  /** For a report interval of the accepted kind that is 20 seconds at most. */
  lemma TwentySeconds(config: Config)
    requires config.reportS >= 0
    ensures config.StaleWindowMs() <= BOARD_REMOVE_AFTER_MS <==> config.reportS <= 20
  {
  }

  /** The unit's edges alternate, the first one into busy, and the unit is busy after an odd number of them. */
  lemma {:induction false} EdgesAlternate(cmds: seq<Command>, xs: seq<System>, config: Config, k: nat)
    requires Run(cmds, xs, config) && k <= |cmds|
    ensures forall i :: 0 <= i < |xs[k].edges| ==> xs[k].edges[i] == (i % 2 == 0)
    ensures xs[k].s.busy == (|xs[k].edges| % 2 == 1)
  {
    hide Remaining, AnyBusy, IsUnitUsage, Parse, Store;
    if k > 0 {
      EdgesAlternate(cmds, xs, config, k - 1);
      assert Step(xs[k - 1], cmds[k - 1], xs[k]);
    }
  }
}
