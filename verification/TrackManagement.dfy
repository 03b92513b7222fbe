/** The track manager of helpers/track_manager.hpp:129-345 with its loops, proved to do what
    TrackStep says. */
module TrackManagement {
  import opened Basics
  import opened Observations
  import opened Assignment
  import opened HungarianSpec
  import opened GatedAssignment
  import opened ClassFilter
  import opened Association
  import opened TrackStep
  import Hungarian

  // ----- association of one class

  /** Line 177. */
  method TrackPositions(ts: seq<Track>, c: string) returns (ps: seq<nat>)
    ensures ps == Positions(TrackClasses(ts), c)
  {
    ps := [];
    ghost var cs := TrackClasses(ts);
    for t := 0 to |ts|
      invariant ps == Positions(cs[..t], c)
    {
      assert cs[..t + 1][..t] == cs[..t];
      if ts[t].cls == c { ps := ps + [t]; }
    }
    assert cs[..|ts|] == cs;
  }

  /** Line 176. */
  method DetPositions(ds: seq<Observation>, c: string) returns (ps: seq<nat>)
    ensures ps == Positions(DetClasses(ds), c)
  {
    ps := [];
    ghost var cs := DetClasses(ds);
    for d := 0 to |ds|
      invariant ps == Positions(cs[..d], c)
    {
      assert cs[..d + 1][..d] == cs[..d];
      if ds[d].cls == c { ps := ps + [d]; }
    }
    assert cs[..|ds|] == cs;
  }

  /** The cost matrix agrees with the cells written so far: all rows before `row`, and the
      columns before `col` of that row. */
  ghost predicate Filled(cost: seq<real>, cfg: Config, cts: seq<Track>, cds: seq<Observation>, row: nat, col: nat) {
    var pr := CostMatrix(cfg, cts, cds);
    && |cost| == pr.n * pr.m
    && forall k :: 0 <= k < |cost| ==>
         if k < row * pr.m + col then cost[k] == pr.cost[k] else cost[k] == BIG
  }

  lemma RowEnd(row: nat, n: nat, m: nat)
    requires row < n
    ensures row * m + m == (row + 1) * m <= n * m
  {
    MulMonotone(row + 1, n, m);
  }

  lemma FilledCell(cfg: Config, cts: seq<Track>, cds: seq<Observation>, row: nat, col: nat)
    requires row < CostMatrix(cfg, cts, cds).n && col < CostMatrix(cfg, cts, cds).m
    ensures
      var pr := CostMatrix(cfg, cts, cds);
      && row * pr.m + col < |pr.cost| == pr.n * pr.m
      && pr.cost[row * pr.m + col] == CellCost(cfg, cts, cds, row, col)
  {
    var pr := CostMatrix(cfg, cts, cds);
    hide CostMatrix, CellCost;
    IndexInRange(row, col, pr.n, pr.m);
    CostMatrixAt(cfg, cts, cds, row, col);
  }

  lemma NothingFilled(cost: seq<real>, cfg: Config, cts: seq<Track>, cds: seq<Observation>)
    requires |cost| == CostMatrix(cfg, cts, cds).n * CostMatrix(cfg, cts, cds).m
    requires forall k :: 0 <= k < |cost| ==> cost[k] == BIG
    ensures Filled(cost, cfg, cts, cds, 0, 0)
  {
    hide CostMatrix;
  }

  /** Writing one more cell at its place k. */
  lemma FilledStep(cost: seq<real>, cost': seq<real>, cfg: Config, cts: seq<Track>, cds: seq<Observation>, row: nat,
                   col: nat, k: nat)
    requires row < CostMatrix(cfg, cts, cds).n && col < CostMatrix(cfg, cts, cds).m
    requires IsPlace(k, row, col, CostMatrix(cfg, cts, cds).m)
    requires Filled(cost, cfg, cts, cds, row, col) && |cost'| == |cost|
    requires forall j :: 0 <= j < |cost| && j != k ==> cost'[j] == cost[j]
    requires k < |cost| && cost'[k] == CellCost(cfg, cts, cds, row, col)
    ensures Filled(cost', cfg, cts, cds, row, col + 1)
  {
    FilledCell(cfg, cts, cds, row, col);
    hide CostMatrix, CellCost;
  }

  /** k is the place of the cell in the flat matrix. */
  predicate IsPlace(k: nat, row: nat, col: nat, m: nat) {
    k == row * m + col
  }

  lemma FilledRow(cost: seq<real>, cfg: Config, cts: seq<Track>, cds: seq<Observation>, row: nat)
    requires row < CostMatrix(cfg, cts, cds).n && Filled(cost, cfg, cts, cds, row, CostMatrix(cfg, cts, cds).m)
    ensures Filled(cost, cfg, cts, cds, row + 1, 0)
  {
    hide CostMatrix;
    RowEnd(row, CostMatrix(cfg, cts, cds).n, CostMatrix(cfg, cts, cds).m);
  }

  lemma AllFilled(cost: seq<real>, cfg: Config, cts: seq<Track>, cds: seq<Observation>)
    requires Filled(cost, cfg, cts, cds, CostMatrix(cfg, cts, cds).n, 0)
    ensures cost == CostMatrix(cfg, cts, cds).cost
  {
    hide CostMatrix;
  }

  /** The cell still to be written is prohibitive. */
  lemma StillBig(cost: seq<real>, cfg: Config, cts: seq<Track>, cds: seq<Observation>, row: nat, col: nat, k: nat)
    requires row < CostMatrix(cfg, cts, cds).n && col < CostMatrix(cfg, cts, cds).m
    requires IsPlace(k, row, col, CostMatrix(cfg, cts, cds).m)
    requires Filled(cost, cfg, cts, cds, row, col)
    ensures k < |cost| && cost[k] == BIG
  {
    hide CostMatrix;
    IndexInRange(row, col, CostMatrix(cfg, cts, cds).n, CostMatrix(cfg, cts, cds).m);
  }

  function CellPlace(row: nat, col: nat, m: nat): (k: nat)
    ensures IsPlace(k, row, col, m)
  {
    row * m + col
  }

  function Size(n: nat, m: nat): (s: nat)
    ensures s == n * m
  {
    n * m
  }

  /** Lines 180-197: prohibitive everywhere, then 1 - IoU where the gate lets a pair through. */
  method Costs(cfg: Config, ts: seq<Track>, ds: seq<Observation>, ti: seq<nat>, di: seq<nat>, n: nat, m: nat,
               rowsAreTracks: bool)
    returns (cost: seq<real>)
    requires forall k :: 0 <= k < |ti| ==> ti[k] < |ts|
    requires forall k :: 0 <= k < |di| ==> di[k] < |ds|
    requires rowsAreTracks == (|ti| <= |di|)
    requires n == (if rowsAreTracks then |ti| else |di|) && m == (if rowsAreTracks then |di| else |ti|)
    ensures Problem(cost, n, m) == CostMatrix(cfg, Select(ts, ti), Select(ds, di))
  {
    hide CostMatrix, PairCost, Filled, IsPlace, CellPlace, Size, Iou, Predicted, BoxOf;
    ghost var cts, cds := Select(ts, ti), Select(ds, di);
    var c := new real[Size(n, m)](_ => BIG);
    NothingFilled(c[..], cfg, cts, cds);
    for a := 0 to n
      invariant Filled(c[..], cfg, cts, cds, a, 0)
    {
      for b := 0 to m
        invariant Filled(c[..], cfg, cts, cds, a, b)
      {
        ghost var was := c[..];
        var k := CellPlace(a, b, m);
        StillBig(was, cfg, cts, cds, a, b, k);
        var t := if rowsAreTracks then ti[a] else ti[b];
        var d := if rowsAreTracks then di[b] else di[a];
        PairCostRange(cfg, ts[t], ds[d]);
        var v := Iou(Predicted(ts[t]), BoxOf(ds[d]));
        if v >= cfg.iouMin { c[k] := 1.0 - v; }
        FilledStep(was, c[..], cfg, cts, cds, a, b, k);
      }
      FilledRow(c[..], cfg, cts, cds, a);
    }
    cost := c[..];
    AllFilled(cost, cfg, cts, cds);
  }

  /** Entry d of the table, once the first `done` rows of the assignment have been read. */
  function EntryAfter(pr: Problem, a: seq<int>, rowsAreTracks: bool, d: nat, done: nat): int
    requires pr.Valid() && IsAssignment(pr, a) && done <= pr.n
    requires d < (if rowsAreTracks then pr.m else pr.n)
  {
    if rowsAreTracks then RowOf(pr, a, d, done)
    else if d < done && At(pr, d + 1, a[d] + 1) < BIG then a[d] else -1
  }

  /** The class's part of the table, and the rest as it was. */
  ghost predicate TableAfter(table: seq<int>, was: seq<int>, ti: seq<nat>, di: seq<nat>, pr: Problem, a: seq<int>,
                             rowsAreTracks: bool, done: nat)
    requires pr.Valid() && IsAssignment(pr, a) && done <= pr.n
    requires if rowsAreTracks then pr.n == |ti| && pr.m == |di| else pr.n == |di| && pr.m == |ti|
  {
    && |table| == |was|
    && (forall k :: 0 <= k < |di| ==>
         && di[k] < |table|
         && (var e := EntryAfter(pr, a, rowsAreTracks, k, done); table[di[k]] == if e < 0 then -1 else ti[e]))
    && (forall d :: 0 <= d < |table| && d !in di ==> table[d] == was[d])
  }

  /** Reading one more row changes at most the entry of the detection it names. */
  lemma EntryStep(pr: Problem, a: seq<int>, rowsAreTracks: bool, row: nat, d: nat)
    requires pr.Valid() && IsAssignment(pr, a) && row < pr.n
    requires d < (if rowsAreTracks then pr.m else pr.n)
    ensures
      var named := if rowsAreTracks then a[row] else row;
      EntryAfter(pr, a, rowsAreTracks, d, row + 1) ==
        if d == named && At(pr, row + 1, a[row] + 1) < BIG then (if rowsAreTracks then row else a[row])
        else EntryAfter(pr, a, rowsAreTracks, d, row)
  {
    hide At;
  }

  lemma EntryUnset(pr: Problem, a: seq<int>, rowsAreTracks: bool, row: nat)
    requires pr.Valid() && IsAssignment(pr, a) && row < pr.n
    ensures EntryAfter(pr, a, rowsAreTracks, if rowsAreTracks then a[row] else row, row) == -1
  {
    hide At;
    assert forall r :: 0 <= r < row ==> a[r] != a[row];
  }

  ghost predicate MarksMatched(matched: seq<bool>, table: seq<int>) {
    forall t :: 0 <= t < |matched| ==> (matched[t] <==> t in table)
  }

  lemma MarkOne(matched: seq<bool>, table: seq<int>, d: nat, t: nat)
    requires MarksMatched(matched, table) && d < |table| && t < |matched| && table[d] == -1
    ensures MarksMatched(matched[t := true], table[d := t])
  {
    var next := table[d := t];
    forall x | 0 <= x < |matched|
      ensures matched[t := true][x] <==> x in next
    {
      if x in table {
        var e :| 0 <= e < |table| && table[e] == x;
        assert next[e] == x;
      }
      assert next[d] == t;
    }
  }

  lemma TableStep(table: seq<int>, was: seq<int>, ti: seq<nat>, di: seq<nat>, pr: Problem, a: seq<int>,
                  rowsAreTracks: bool, row: nat)
    requires pr.Valid() && IsAssignment(pr, a) && row < pr.n
    requires if rowsAreTracks then pr.n == |ti| && pr.m == |di| else pr.n == |di| && pr.m == |ti|
    requires TableAfter(table, was, ti, di, pr, a, rowsAreTracks, row)
    requires forall x, y :: 0 <= x < y < |di| ==> di[x] != di[y]
    ensures
      var t, d := if rowsAreTracks then ti[row] else ti[a[row]], if rowsAreTracks then di[a[row]] else di[row];
      d < |table| && if At(pr, row + 1, a[row] + 1) < BIG then
        table[d] == -1 && TableAfter(table[d := t], was, ti, di, pr, a, rowsAreTracks, row + 1)
      else TableAfter(table, was, ti, di, pr, a, rowsAreTracks, row + 1)
  {
    hide EntryAfter, At, IsAssignment;
    InColumns(pr, a, row);
    EntryUnset(pr, a, rowsAreTracks, row);
    forall k | 0 <= k < |di|
      ensures EntryAfter(pr, a, rowsAreTracks, k, row + 1) ==
              if k == (if rowsAreTracks then a[row] else row) && At(pr, row + 1, a[row] + 1) < BIG then
                (if rowsAreTracks then row else a[row])
              else EntryAfter(pr, a, rowsAreTracks, k, row)
    {
      EntryStep(pr, a, rowsAreTracks, row, k);
    }
  }

  lemma InColumns(pr: Problem, a: seq<int>, row: nat)
    requires IsAssignment(pr, a) && row < pr.n
    ensures |a| == pr.n && 0 <= a[row] < pr.m
  {
  }

  /** Lines 199-209: keep the admissible pairs of the assignment. */
  method ReadAssignment(pr: Problem, assign: seq<int>, ti: seq<nat>, di: seq<nat>, rowsAreTracks: bool,
                        detTrack: array<int>, matched: array<bool>)
    requires pr.Valid() && IsAssignment(pr, assign)
    requires if rowsAreTracks then pr.n == |ti| && pr.m == |di| else pr.n == |di| && pr.m == |ti|
    requires forall k :: 0 <= k < |ti| ==> ti[k] < matched.Length
    requires forall k :: 0 <= k < |di| ==> di[k] < detTrack.Length && detTrack[di[k]] == -1
    requires forall x, y :: 0 <= x < y < |di| ==> di[x] != di[y]
    requires MarksMatched(matched[..], detTrack[..])
    modifies detTrack, matched
    ensures TableAfter(detTrack[..], old(detTrack[..]), ti, di, pr, assign, rowsAreTracks, pr.n)
    ensures MarksMatched(matched[..], detTrack[..])
  {
    hide EntryAfter, At, IsAssignment, MarksMatched;
    ghost var was := detTrack[..];
    NothingRead(was, ti, di, pr, assign, rowsAreTracks);
    for a := 0 to pr.n
      invariant TableAfter(detTrack[..], was, ti, di, pr, assign, rowsAreTracks, a)
      invariant MarksMatched(matched[..], detTrack[..])
    {
      InColumns(pr, assign, a);
      var b := assign[a];
      TableStep(detTrack[..], was, ti, di, pr, assign, rowsAreTracks, a);
      if b < 0 || At(pr, a + 1, b + 1) >= BIG { continue; }
      var t := if rowsAreTracks then ti[a] else ti[b];
      var d := if rowsAreTracks then di[b] else di[a];
      MarkOne(matched[..], detTrack[..], d, t);
      detTrack[d] := t;
      matched[t] := true;
    }
  }

  lemma NothingRead(was: seq<int>, ti: seq<nat>, di: seq<nat>, pr: Problem, a: seq<int>, rowsAreTracks: bool)
    requires pr.Valid() && IsAssignment(pr, a)
    requires if rowsAreTracks then pr.n == |ti| && pr.m == |di| else pr.n == |di| && pr.m == |ti|
    requires forall k :: 0 <= k < |di| ==> di[k] < |was| && was[di[k]] == -1
    ensures TableAfter(was, was, ti, di, pr, a, rowsAreTracks, 0)
  {
  }

  /** Once all rows are read, the entries are those of AssocFrom. */
  lemma EntriesAreAssoc(pr: Problem, a: seq<int>, rowsAreTracks: bool, k: nat)
    requires pr.Valid() && IsAssignment(pr, a) && k < (if rowsAreTracks then pr.m else pr.n)
    ensures EntryAfter(pr, a, rowsAreTracks, k, pr.n) == AssocFrom(pr, a, rowsAreTracks)[k]
  {
    hide At, RowOf, IsAssignment;
  }

  lemma LocalEntry(cfg: Config, cts: seq<Track>, cds: seq<Observation>, k: nat)
    requires cts != [] && k < |cds|
    requires IsAssignment(CostMatrix(cfg, cts, cds), Solve(CostMatrix(cfg, cts, cds)))
    ensures
      var pr := CostMatrix(cfg, cts, cds);
      EntryAfter(pr, Solve(pr), RowsAreTracks(cts, cds), k, pr.n) == LocalAssoc(cfg, cts, cds)[k]
  {
    hide CostMatrix, Solve, IsAssignment, AssocFrom, EntryAfter;
    EntriesAreAssoc(CostMatrix(cfg, cts, cds), Solve(CostMatrix(cfg, cts, cds)), RowsAreTracks(cts, cds), k);
  }

  lemma TableIsAssoc(cfg: Config, ts: seq<Track>, ds: seq<Observation>, c: string, table: seq<int>, was: seq<int>)
    requires TracksOf(ts, c) != [] && DetsOf(ds, c) != [] && |table| == |ds|
    requires IsAssignment(CostMatrix(cfg, TracksOf(ts, c), DetsOf(ds, c)),
                          Solve(CostMatrix(cfg, TracksOf(ts, c), DetsOf(ds, c))))
    requires
      var pr := CostMatrix(cfg, TracksOf(ts, c), DetsOf(ds, c));
      TableAfter(table, was, Positions(TrackClasses(ts), c), Positions(DetClasses(ds), c), pr, Solve(pr),
                 RowsAreTracks(TracksOf(ts, c), DetsOf(ds, c)), pr.n)
    ensures forall d :: 0 <= d < |ds| ==> table[d] == if ds[d].cls == c then AssocAt(cfg, ts, ds, d) else was[d]
  {
    hide CostMatrix, Solve, IsAssignment, EntryAfter, LocalAssoc, PlaceOf;
    var di := Positions(DetClasses(ds), c);
    forall d | 0 <= d < |ds|
      ensures table[d] == if ds[d].cls == c then AssocAt(cfg, ts, ds, d) else was[d]
    {
      if ds[d].cls == c {
        PlaceInClass(DetClasses(ds), c, d);
        var k := PlaceOf(DetClasses(ds), c, d);
        assert di[k] == d;
        LocalEntry(cfg, TracksOf(ts, c), DetsOf(ds, c), k);
      } else {
        assert DetClasses(ds)[d] != c;
        assert d !in di;
      }
    }
  }

  lemma EmptyClass(cfg: Config, ts: seq<Track>, ds: seq<Observation>, c: string, d: nat)
    requires TracksOf(ts, c) == [] || DetsOf(ds, c) == []
    requires d < |ds| && ds[d].cls == c
    ensures AssocAt(cfg, ts, ds, d) == -1
  {
    PlaceInClass(DetClasses(ds), c, d);
    hide PlaceOf;
  }

  /** Lines 173-210 for one class: its detections get their entries, no other entry changes. */
  method AssociateClass(cfg: Config, ts: seq<Track>, ds: seq<Observation>, c: string, detTrack: array<int>,
                        matched: array<bool>)
    requires detTrack.Length == |ds| && matched.Length == |ts|
    requires forall d :: 0 <= d < |ds| && ds[d].cls == c ==> detTrack[d] == -1
    requires MarksMatched(matched[..], detTrack[..])
    modifies detTrack, matched
    ensures forall d :: 0 <= d < |ds| ==>
      detTrack[d] == if ds[d].cls == c then AssocAt(cfg, ts, ds, d) else old(detTrack[d])
    ensures MarksMatched(matched[..], detTrack[..])
  {
    hide CostMatrix, Solve, LocalAssoc, AssocAt, MarksMatched, Optimal, IsAssignment, TableAfter;
    var di := DetPositions(ds, c);
    var ti := TrackPositions(ts, c);
    if di == [] || ti == [] {
      forall d | 0 <= d < |ds| && ds[d].cls == c
        ensures AssocAt(cfg, ts, ds, d) == -1
      {
        EmptyClass(cfg, ts, ds, c, d);
      }
      return;
    }
    var rowsAreTracks := |ti| <= |di|;
    var n := if rowsAreTracks then |ti| else |di|;
    var m := if rowsAreTracks then |di| else |ti|;
    var cost := Costs(cfg, ts, ds, ti, di, n, m, rowsAreTracks);
    var assign := Hungarian.Hungarian(cost, n, m);
    var pr := Problem(cost, n, m);
    AssignmentOfOptimal(pr, assign);
    forall k | 0 <= k < |di|
      ensures detTrack[di[k]] == -1
    {
      assert DetClasses(ds)[di[k]] == c;
    }
    ghost var was := detTrack[..];
    ReadAssignment(pr, assign, ti, di, rowsAreTracks, detTrack, matched);
    TableIsAssoc(cfg, ts, ds, c, detTrack[..], was);
  }

  lemma AssignmentOfOptimal(pr: Problem, a: seq<int>)
    requires pr.Valid() && Optimal(pr, a)
    ensures IsAssignment(pr, a)
  {
  }

  // ----- a whole frame

  /** Lines 157-161. */
  method FilterConfident(cfg: Config, obs: seq<Observation>) returns (ds: seq<Observation>)
    ensures ds == Confident(cfg, obs)
  {
    ds := [];
    for i := 0 to |obs|
      invariant ds == Confident(cfg, obs[..i])
    {
      assert obs[..i + 1][..i] == obs[..i];
      if obs[i].conf >= cfg.minConf { ds := ds + [obs[i]]; }
    }
    assert obs[..|obs|] == obs;
  }

  /** Lines 167-171: the classes of the frame, each once. */
  method ClassNames(ds: seq<Observation>) returns (cs: seq<string>)
    ensures forall d :: 0 <= d < |ds| ==> ds[d].cls in cs
    ensures forall x, y :: 0 <= x < y < |cs| ==> cs[x] != cs[y]
  {
    cs := [];
    for d := 0 to |ds|
      invariant forall e :: 0 <= e < d ==> ds[e].cls in cs
      invariant forall x, y :: 0 <= x < y < |cs| ==> cs[x] != cs[y]
    {
      if ds[d].cls !in cs { cs := cs + [ds[d].cls]; }
    }
  }

  /** Lines 163-210: the tables of the frame. */
  method Associate(cfg: Config, ts: seq<Track>, ds: seq<Observation>)
    returns (detTrack: array<int>, matched: array<bool>)
    ensures fresh(detTrack) && fresh(matched)
    ensures detTrack[..] == Assoc(cfg, ts, ds)
    ensures matched.Length == |ts| && MarksMatched(matched[..], detTrack[..])
  {
    hide AssocAt, MarksMatched;
    detTrack := new int[|ds|](_ => -1);
    matched := new bool[|ts|](_ => false);
    NoneMatched(matched[..], detTrack[..]);
    var classes := ClassNames(ds);
    for k := 0 to |classes|
      invariant forall d :: 0 <= d < |ds| ==>
                  detTrack[d] == if ds[d].cls in classes[..k] then AssocAt(cfg, ts, ds, d) else -1
      invariant MarksMatched(matched[..], detTrack[..])
    {
      assert classes[k] !in classes[..k];
      assert classes[..k + 1] == classes[..k] + [classes[k]];
      AssociateClass(cfg, ts, ds, classes[k], detTrack, matched);
    }
    assert classes[..|classes|] == classes;
  }

  lemma NoneMatched(matched: seq<bool>, table: seq<int>)
    requires forall t :: 0 <= t < |matched| ==> !matched[t]
    requires forall d :: 0 <= d < |table| ==> table[d] == -1
    ensures MarksMatched(matched, table)
  {
  }

  /** The tracks after lines 212-219 have handled the first k detections. */
  function TouchedBy(cfg: Config, ts: seq<Track>, ds: seq<Observation>, dt: seq<int>, k: nat): seq<Track>
    requires k <= |dt| == |ds|
  {
    seq(|ts|, t requires 0 <= t < |ts| => var d := DetOf(dt, t, k); if d < 0 then ts[t] else Touched(cfg, ts[t], ds[d]))
  }

  lemma TouchedByStep(cfg: Config, ts: seq<Track>, ds: seq<Observation>, dt: seq<int>, k: nat)
    requires k < |dt| == |ds| && Table(dt, |ts|)
    ensures
      var before := TouchedBy(cfg, ts, ds, dt, k);
      TouchedBy(cfg, ts, ds, dt, k + 1) ==
        if dt[k] < 0 then before else before[dt[k] := Touched(cfg, before[dt[k]], ds[k])]
  {
    hide Touched;
    if dt[k] >= 0 {
      assert DetOf(dt, dt[k], k) == -1;
    }
  }

  /** Lines 212-226. */
  method AdvanceTracks(cfg: Config, ts: seq<Track>, ds: seq<Observation>, detTrack: array<int>, matched: array<bool>)
    returns (moved: seq<Track>)
    requires detTrack.Length == |ds| && matched.Length == |ts|
    requires MarksMatched(matched[..], detTrack[..])
    requires Table(detTrack[..], |ts|)
    ensures moved == Advance(cfg, ts, ds, detTrack[..])
  {
    hide Touched, Missed;
    ghost var dt := detTrack[..];
    moved := ts;
    assert moved == TouchedBy(cfg, ts, ds, dt, 0);
    for d := 0 to |ds|
      invariant moved == TouchedBy(cfg, ts, ds, dt, d)
    {
      TouchedByStep(cfg, ts, ds, dt, d);
      if detTrack[d] < 0 { continue; }
      moved := moved[detTrack[d] := Touched(cfg, moved[detTrack[d]], ds[d])];
    }
    ghost var touched := moved;
    for t := 0 to |ts|
      invariant |moved| == |ts|
      invariant forall u :: 0 <= u < |ts| ==>
        moved[u] == if u < t && !matched[u] then Missed(touched[u]) else touched[u]
    {
      if matched[t] { continue; }
      moved := moved[t := Missed(moved[t])];
    }
    forall t | 0 <= t < |ts|
      ensures moved[t] == Advance(cfg, ts, ds, dt)[t]
    {
      assert matched[..][t] <==> t in dt;
      if t in dt {
        var e :| 0 <= e < |dt| && dt[e] == t;
      }
    }
  }

  /** Lines 228-239. */
  method BearTracks(cfg: Config, ds: seq<Observation>, dt: seq<int>, nextId: int) returns (born: seq<Track>, next: int)
    requires |dt| == |ds|
    ensures born == Born(cfg, ds, dt, nextId, |ds|) && next == nextId + Unmatched(dt, |ds|)
  {
    hide Newborn;
    born, next := [], nextId;
    for d := 0 to |ds|
      invariant born == Born(cfg, ds, dt, nextId, d) && next == nextId + Unmatched(dt, d)
    {
      if dt[d] >= 0 { continue; }
      born := born + [Newborn(cfg, next, ds[d])];
      next := next + 1;
    }
  }

  /** Lines 241-268: confirmed matched tracks first, then tracks confirmed at birth. */
  method Publish(moved: seq<Track>, born: seq<Track>, ds: seq<Observation>, dt: seq<int>) returns (os: seq<Observation>)
    requires |dt| == |ds| && forall d :: 0 <= d < |dt| ==> dt[d] < |moved|
    requires |born| == Unmatched(dt, |dt|)
    ensures os == Published(moved, ds, dt, |ds|) + PublishedBorn(born, ds, dt, |ds|)
  {
    os := [];
    for d := 0 to |ds|
      invariant os == Published(moved, ds, dt, d)
    {
      if dt[d] < 0 || !moved[dt[d]].confirmed { continue; }
      os := os + [Labelled(ds[d], moved[dt[d]].id)];
    }
    ghost var first := os;
    var bi := 0;
    for d := 0 to |ds|
      invariant bi == Unmatched(dt, d) && Unmatched(dt, d) <= |born|
      invariant os == first + PublishedBorn(born, ds, dt, d)
    {
      UnmatchedBound(dt, d);
      if dt[d] >= 0 { continue; }
      var tr := born[bi];
      bi := bi + 1;
      if !tr.confirmed { continue; }
      os := os + [Labelled(ds[d], tr.id)];
    }
  }

  lemma UnmatchedBound(dt: seq<int>, d: nat)
    requires d < |dt|
    ensures Unmatched(dt, d + 1) <= Unmatched(dt, |dt|)
  {
    UnmatchedMonotone(dt, d + 1, |dt|);
  }

  /** Lines 270-276. */
  method DropDead(cfg: Config, ts: seq<Track>) returns (alive: seq<Track>)
    ensures alive == Survivors(cfg, ts)
  {
    hide Dead;
    alive := [];
    for t := 0 to |ts|
      invariant alive == Survivors(cfg, ts[..t])
    {
      assert ts[..t + 1][..t] == ts[..t];
      if Dead(cfg, ts[t]) { continue; }
      alive := alive + [ts[t]];
    }
    assert ts[..|ts|] == ts;
  }

  class TrackManager {
    var config: Config
    var tracks: seq<Track>
    var nextId: int

    function State(): State
      reads this
    {
      TrackStep.State(config, tracks, nextId)
    }

    constructor (c: Config)
      ensures State() == Init(c)
    {
      config, tracks, nextId := Sanitize(c), [], 1;
    }

    method SetConfig(c: Config)
      modifies this
      ensures State() == old(State()).(cfg := Sanitize(c))
    {
      config := Sanitize(c);
    }

    /** Forget every track; ids keep counting up. */
    method Reset()
      modifies this
      ensures State() == old(State()).(tracks := [])
    {
      tracks := [];
    }

    /** Feed one processed frame (lines 149-281). */
    method Update(frame: Frame) returns (out: Frame)
      modifies this
      ensures State() == TrackStep.Update(old(State()), frame).state
      ensures out == TrackStep.Update(old(State()), frame).out
    {
      hide Assoc, Confident, Advance, Born, Published, PublishedBorn, Survivors, MarksMatched, Unmatched;
      var dets := FilterConfident(config, frame.obs);
      var detTrack, matched := Associate(config, tracks, dets);
      AssocIsTable(config, tracks, dets);
      var moved := AdvanceTracks(config, tracks, dets, detTrack, matched);
      var born, next := BearTracks(config, dets, detTrack[..], nextId);
      var os := Publish(moved, born, dets, detTrack[..]);
      var alive := DropDead(config, moved);
      tracks := alive + born;
      nextId := next;
      out := Frame(frame.camId, frame.tmCapture, os);
    }
  }
}
