/** The primal-dual assignment search of helpers/track_manager.hpp:74-125, one function a loop,
    and the proof that it returns a cheapest assignment. */
module HungarianSpec {
  import opened Assignment

  /** The source's slack values: infinity until the first scan reaches a column. */
  datatype Dist = Inf | Fin(d: real)

  predicate Less(a: Dist, b: Dist) {
    a.Fin? && (b.Inf? || a.d < b.d)
  }

  function Minus(a: Dist, x: real): Dist {
    if a.Fin? then Fin(a.d - x) else Inf
  }

  /** What survives from one row to the next. Index 0 of u, v, p and way is the source's
      virtual row or column. */
  datatype Duals = Duals(u: seq<real>, v: seq<real>, p: seq<nat>, way: seq<nat>)

  /** The alternating tree of one row. `visited` lists the columns with used[j] set, in the
      order in which they were reached. */
  datatype Tree = Tree(u: seq<real>, v: seq<real>, minv: seq<Dist>, way: seq<nat>, visited: seq<nat>, j0: nat)

  // ----- invariants

  ghost predicate DualShape(pr: Problem, u: seq<real>, v: seq<real>) {
    |u| == pr.n + 1 && |v| == pr.m + 1
  }

  function Reduced(pr: Problem, u: seq<real>, v: seq<real>, i: nat, j: nat): real
    requires pr.Valid() && DualShape(pr, u, v) && 1 <= i <= pr.n && 1 <= j <= pr.m
  {
    At(pr, i, j) - u[i] - v[j]
  }

  /** No two columns from `lo` on hold the same row, and the rows are among 1..k. */
  ghost predicate RowsDistinct(p: seq<nat>, lo: nat, k: nat) {
    && (forall j :: lo <= j < |p| ==> p[j] <= k)
    && (forall a, b :: lo <= a < b < |p| && p[a] != 0 ==> p[a] != p[b])
  }

  ghost predicate HasRow(p: seq<nat>, lo: nat, r: nat) {
    exists j :: lo <= j < |p| && p[j] == r
  }

  /** Every row 1..k is held by some column from `lo` on. */
  ghost predicate RowsCovered(p: seq<nat>, lo: nat, k: nat) {
    forall r :: 1 <= r <= k ==> HasRow(p, lo, r)
  }

  ghost predicate FeasibleRow(pr: Problem, u: seq<real>, v: seq<real>, i: nat)
    requires pr.Valid() && DualShape(pr, u, v) && 1 <= i <= pr.n
  {
    forall j :: 1 <= j <= pr.m ==> Reduced(pr, u, v, i, j) >= 0.0
  }

  ghost predicate FeasibleRows(pr: Problem, u: seq<real>, v: seq<real>, k: nat)
    requires pr.Valid() && DualShape(pr, u, v) && k <= pr.n
  {
    forall i :: 1 <= i <= k ==> FeasibleRow(pr, u, v, i)
  }

  /** Matched edges are tight; column potentials are never positive and vanish on free columns. */
  ghost predicate Slackness(pr: Problem, u: seq<real>, v: seq<real>, p: seq<nat>)
    requires pr.Valid() && DualShape(pr, u, v) && |p| == pr.m + 1
    requires forall j :: 1 <= j <= pr.m ==> p[j] <= pr.n
  {
    && (forall j :: 1 <= j <= pr.m && p[j] != 0 ==> Reduced(pr, u, v, p[j], j) == 0.0)
    && (forall j :: 1 <= j <= pr.m ==> v[j] <= 0.0)
    && (forall j :: 1 <= j <= pr.m && p[j] == 0 ==> v[j] == 0.0)
  }

  /** Between rows: the first k rows are matched and the duals certify it. */
  ghost predicate DualsInv(pr: Problem, s: Duals, k: nat) {
    match s
    case Duals(u, v, p, way) =>
      && pr.Valid() && k <= pr.n
      && DualShape(pr, u, v) && |p| == pr.m + 1 && |way| == pr.m + 1
      && RowsDistinct(p, 1, k) && RowsCovered(p, 1, k)
      && FeasibleRows(pr, u, v, k)
      && Slackness(pr, u, v, p)
  }

  ghost predicate Distinct(s: seq<nat>) {
    forall a, b :: 0 <= a < b < |s| ==> s[a] != s[b]
  }

  ghost predicate TreeShape(pr: Problem, p: seq<nat>, i: nat, t: Tree) {
    && pr.Valid() && 1 <= i <= pr.n
    && DualShape(pr, t.u, t.v) && |t.minv| == pr.m + 1 && |t.way| == pr.m + 1
    && |p| == pr.m + 1 && p[0] == i && RowsDistinct(p, 0, i)
    && (forall j :: 0 <= j <= pr.m ==> p[j] <= pr.n)
    && t.j0 <= pr.m && t.j0 !in t.visited
    && (forall k :: 0 <= k < |t.visited| ==> t.visited[k] <= pr.m && p[t.visited[k]] != 0)
    && Distinct(t.visited)
    && (t.visited == [] <==> t.j0 == 0)
    && (t.visited != [] ==> t.visited[0] == 0)
  }

  ghost predicate TreeFeasible(pr: Problem, p: seq<nat>, i: nat, t: Tree)
    requires TreeShape(pr, p, i, t)
  {
    && FeasibleRows(pr, t.u, t.v, i - 1)
    && (t.visited != [] ==> FeasibleRow(pr, t.u, t.v, i))
  }

  /** minv[j] is the least reduced cost from a row of the tree to the column j outside it,
      and way[j] is a tree column that attains it. */
  ghost predicate SlackAt(pr: Problem, p: seq<nat>, i: nat, t: Tree, j: nat)
    requires TreeShape(pr, p, i, t) && 1 <= j <= pr.m
  {
    && t.minv[j].Fin? && t.minv[j].d >= 0.0
    && (forall k :: 0 <= k < |t.visited| ==> t.minv[j].d <= Reduced(pr, t.u, t.v, p[t.visited[k]], j))
    && t.way[j] in t.visited
    && t.minv[j].d == Reduced(pr, t.u, t.v, p[t.way[j]], j)
  }

  ghost predicate Slacks(pr: Problem, p: seq<nat>, i: nat, t: Tree)
    requires TreeShape(pr, p, i, t)
  {
    if t.visited == [] then
      forall j :: 1 <= j <= pr.m ==> t.minv[j] == Inf
    else
      && (forall j :: 1 <= j <= pr.m && j !in t.visited ==> SlackAt(pr, p, i, t, j))
      && t.minv[t.j0] == Fin(0.0)
  }

  /** The tree edge into the k-th visited column is tight and leaves an earlier column. */
  ghost predicate PathEdge(pr: Problem, p: seq<nat>, i: nat, t: Tree, k: nat)
    requires TreeShape(pr, p, i, t) && 1 <= k < |t.visited|
  {
    var j := t.visited[k];
    && j != 0 && t.way[j] in t.visited[..k]
    && Reduced(pr, t.u, t.v, p[t.way[j]], j) == 0.0
  }

  ghost predicate PathTight(pr: Problem, p: seq<nat>, i: nat, t: Tree)
    requires TreeShape(pr, p, i, t)
  {
    forall k :: 1 <= k < |t.visited| ==> PathEdge(pr, p, i, t, k)
  }

  /** At the head of the search loop (lines 87-109), before used[j0] is set. */
  ghost predicate TreeInv(pr: Problem, p: seq<nat>, i: nat, t: Tree) {
    && TreeShape(pr, p, i, t)
    && TreeFeasible(pr, p, i, t)
    && Slackness(pr, t.u, t.v, p)
    && Slacks(pr, p, i, t)
    && PathTight(pr, p, i, t)
  }

  // ----- one round of the search

  /** Slack of column j after a look from the row of column j0 (line 98). */
  function RelaxedSlack(pr: Problem, p: seq<nat>, t: Tree, j: nat): Dist
    requires pr.Valid() && DualShape(pr, t.u, t.v) && |t.minv| == pr.m + 1 && t.j0 < |p| && 1 <= p[t.j0] <= pr.n
    requires j <= pr.m
  {
    if j == 0 || j == t.j0 || j in t.visited then t.minv[j]
    else
      var cur := Fin(Reduced(pr, t.u, t.v, p[t.j0], j));
      if Less(cur, t.minv[j]) then cur else t.minv[j]
  }

  function RelaxedWay(pr: Problem, p: seq<nat>, t: Tree, j: nat): nat
    requires pr.Valid() && DualShape(pr, t.u, t.v) && |t.minv| == pr.m + 1 && t.j0 < |p| && 1 <= p[t.j0] <= pr.n
    requires j <= pr.m && |t.way| == pr.m + 1
  {
    if j == 0 || j == t.j0 || j in t.visited then t.way[j]
    else if Less(Fin(Reduced(pr, t.u, t.v, p[t.j0], j)), t.minv[j]) then t.j0 else t.way[j]
  }

  /** The first unused column of 1..k with the least slack, 0 when all are used or infinite. */
  function FirstMin(minv: seq<Dist>, visited: seq<nat>, k: nat): (j1: nat)
    requires k < |minv|
    ensures j1 <= k
    ensures j1 != 0 ==> j1 !in visited && minv[j1].Fin?
    ensures forall j :: 1 <= j <= k && j !in visited && minv[j].Fin? ==> j1 != 0 && minv[j1].d <= minv[j].d
  {
    if k == 0 then 0
    else
      var b := FirstMin(minv, visited, k - 1);
      if k !in visited && Less(minv[k], if b == 0 then Inf else minv[b]) then k else b
  }

  predicate InTree(p: seq<nat>, visited: seq<nat>, r: nat)
    requires forall k :: 0 <= k < |visited| ==> visited[k] < |p|
  {
    exists k :: 0 <= k < |visited| && p[visited[k]] == r
  }

  /** The tree after the scan of lines 89-100, before the potentials move. */
  function Scan(pr: Problem, p: seq<nat>, t: Tree): (t': Tree)
    requires pr.Valid() && DualShape(pr, t.u, t.v) && |t.minv| == pr.m + 1 && |t.way| == pr.m + 1
    requires t.j0 < |p| && 1 <= p[t.j0] <= pr.n
  {
    var minv := seq(pr.m + 1, j requires 0 <= j <= pr.m => RelaxedSlack(pr, p, t, j));
    var way := seq(pr.m + 1, j requires 0 <= j <= pr.m => RelaxedWay(pr, p, t, j));
    var visited := t.visited + [t.j0];
    Tree(t.u, t.v, minv, way, visited, FirstMin(minv, visited, pr.m))
  }

  /** Lines 102-106: raise the rows of the tree and lower its columns by delta. */
  function Shift(p: seq<nat>, t: Tree, delta: real): (t': Tree)
    requires |t.minv| == |t.v|
    requires forall k :: 0 <= k < |t.visited| ==> t.visited[k] < |p|
  {
    t.(u := seq(|t.u|, r requires 0 <= r < |t.u| => if InTree(p, t.visited, r) then t.u[r] + delta else t.u[r]),
       v := seq(|t.v|, j requires 0 <= j < |t.v| => if j in t.visited then t.v[j] - delta else t.v[j]),
       minv := seq(|t.v|, j requires 0 <= j < |t.v| => if j in t.visited then t.minv[j] else Minus(t.minv[j], delta)))
  }

  lemma FreeColumn(pr: Problem, p: seq<nat>, i: nat)
    requires pr.Valid() && 1 <= i <= pr.n && |p| == pr.m + 1 && p[0] == i && RowsDistinct(p, 0, i)
    ensures exists j :: 1 <= j <= pr.m && p[j] == 0
  {
    if forall j :: 1 <= j <= pr.m ==> p[j] != 0 {
      var s: seq<nat> := seq(pr.m, k requires 0 <= k < pr.m => assert p[k + 1] != 0; p[k + 1] - 1);
      forall a, b | 0 <= a < b < |s| ensures s[a] != s[b] {
        assert p[a + 1] != p[b + 1];
      }
      forall k | 0 <= k < |s| ensures s[k] < i - 1 {
        assert p[k + 1] != p[0];
      }
      Pigeonhole(s, i - 1);
    }
  }

  lemma VisitedCount(pr: Problem, p: seq<nat>, i: nat, t: Tree)
    requires TreeInv(pr, p, i, t)
    ensures |t.visited| <= pr.m && t.j0 <= pr.m < |p|
  {
    var s := t.visited + [t.j0];
    forall a, b | 0 <= a < b < |s| ensures s[a] != s[b] {
      if b == |t.visited| {
        assert s[a] in t.visited;
      }
    }
    Pigeonhole(s, pr.m + 1);
  }

  /** What the scan knows of a column outside the enlarged tree. */
  ghost predicate Scanned(pr: Problem, p: seq<nat>, i: nat, s: Tree, j: nat)
    requires TreeShape(pr, p, i, s) && 1 <= j <= pr.m
  {
    && s.minv[j].Fin? && s.way[j] in s.visited
    && s.minv[j].d == Reduced(pr, s.u, s.v, p[s.way[j]], j)
    && (forall k :: 0 <= k < |s.visited| ==> s.minv[j].d <= Reduced(pr, s.u, s.v, p[s.visited[k]], j))
  }

  /** The tree between lines 100 and 102; `first` marks the first round of a row. */
  ghost predicate ScanInv(pr: Problem, p: seq<nat>, i: nat, s: Tree, first: bool) {
    && TreeShape(pr, p, i, s) && s.visited != []
    && s.minv[s.j0].Fin?
    && (forall j :: 1 <= j <= pr.m && j !in s.visited ==>
         Scanned(pr, p, i, s, j) && s.minv[s.j0].d <= s.minv[j].d)
    && FeasibleRows(pr, s.u, s.v, i - 1)
    && (if first then s.visited == [0] else FeasibleRow(pr, s.u, s.v, i) && s.minv[s.j0].d >= 0.0)
    && Slackness(pr, s.u, s.v, p)
    && PathTight(pr, p, i, s)
  }

  lemma ScanShape(pr: Problem, p: seq<nat>, i: nat, t: Tree)
    requires TreeInv(pr, p, i, t) && p[t.j0] != 0
    ensures TreeShape(pr, p, i, Scan(pr, p, t)) && Scan(pr, p, t).visited != []
    ensures Scan(pr, p, t).minv[Scan(pr, p, t).j0].Fin?
  {
    hide FeasibleRows, Slackness, PathTight, Reduced;
    var s := Scan(pr, p, t);
    FreeColumn(pr, p, i);
    var free :| 1 <= free <= pr.m && p[free] == 0;
    assert free !in s.visited;
    assert t.visited != [] ==> SlackAt(pr, p, i, t, free);
    assert s.minv[free].Fin?;
    assert s.j0 != 0;
  }

  lemma NextRowFeasible(pr: Problem, p: seq<nat>, i: nat, t: Tree)
    requires TreeInv(pr, p, i, t) && p[t.j0] != 0 && t.visited != []
    ensures FeasibleRow(pr, t.u, t.v, p[t.j0])
  {
    hide FeasibleRow, Slackness, PathTight, Slacks, Reduced;
  }

  /** One column of the scan: its slack is the least over the enlarged tree. */
  lemma ScanColumn(pr: Problem, p: seq<nat>, i: nat, t: Tree, j: nat)
    requires TreeInv(pr, p, i, t) && p[t.j0] != 0 && TreeShape(pr, p, i, Scan(pr, p, t))
    requires 1 <= j <= pr.m && j !in t.visited && j != t.j0
    ensures Scanned(pr, p, i, Scan(pr, p, t), j)
    ensures t.visited != [] ==> Scan(pr, p, t).minv[j].d >= 0.0
  {
    hide FeasibleRows, Slackness, PathTight, RowsDistinct, Distinct;
    var s := Scan(pr, p, t);
    if t.visited != [] {
      assert SlackAt(pr, p, i, t, j);
      assert t.way[j] in s.visited;
      NextRowFeasible(pr, p, i, t);
    }
    assert s.visited[|t.visited|] == t.j0;
    forall k | 0 <= k < |s.visited|
      ensures s.minv[j].d <= Reduced(pr, s.u, s.v, p[s.visited[k]], j)
    {
      if k < |t.visited| {
        assert s.visited[k] == t.visited[k];
      }
    }
  }

  /** The path edges of the enlarged tree, the new one into j0 included. */
  lemma ScanPath(pr: Problem, p: seq<nat>, i: nat, t: Tree)
    requires TreeInv(pr, p, i, t) && p[t.j0] != 0
    requires TreeShape(pr, p, i, Scan(pr, p, t))
    ensures PathTight(pr, p, i, Scan(pr, p, t))
  {
    hide FeasibleRows, Slackness, Reduced, RowsDistinct, Distinct;
    var s := Scan(pr, p, t);
    forall k | 1 <= k < |s.visited|
      ensures PathEdge(pr, p, i, s, k)
    {
      if k < |t.visited| {
        assert PathEdge(pr, p, i, t, k);
        assert s.visited[..k] == t.visited[..k];
      } else {
        assert SlackAt(pr, p, i, t, t.j0);
        assert s.visited[..k] == t.visited;
      }
    }
  }

  lemma ScanKeeps(pr: Problem, p: seq<nat>, i: nat, t: Tree)
    requires TreeInv(pr, p, i, t) && p[t.j0] != 0
    ensures ScanInv(pr, p, i, Scan(pr, p, t), t.visited == [])
  {
    hide FeasibleRows, Slackness, PathTight, Reduced;
    var s := Scan(pr, p, t);
    ScanShape(pr, p, i, t);
    ScanPath(pr, p, i, t);
    forall j | 1 <= j <= pr.m && j !in s.visited
      ensures Scanned(pr, p, i, s, j) && s.minv[s.j0].d <= s.minv[j].d
    {
      ScanColumn(pr, p, i, t, j);
    }
    if t.visited != [] {
      ScanColumn(pr, p, i, t, s.j0);
    }
  }

  /** A row in the tree has exactly one column, which is used iff the row is in the tree. */
  lemma TreeRow(p: seq<nat>, visited: seq<nat>, k: nat, j: nat)
    requires RowsDistinct(p, 0, k) && j < |p| && p[j] != 0
    requires forall x :: 0 <= x < |visited| ==> visited[x] < |p|
    ensures InTree(p, visited, p[j]) <==> j in visited
  {
    if j in visited {
      var x :| 0 <= x < |visited| && visited[x] == j;
      assert p[visited[x]] == p[j];
    }
  }

  /** How a reduced cost changes when the potentials move: only edges across the tree change. */
  lemma ShiftedReduced(pr: Problem, p: seq<nat>, i: nat, s: Tree, delta: real, r: nat, j: nat)
    requires TreeShape(pr, p, i, s) && 1 <= r <= pr.n && 1 <= j <= pr.m
    ensures
      var s' := Shift(p, s, delta);
      Reduced(pr, s'.u, s'.v, r, j) == Reduced(pr, s.u, s.v, r, j)
        - (if InTree(p, s.visited, r) then delta else 0.0) + (if j in s.visited then delta else 0.0)
  {
  }

  lemma ShiftFeasible(pr: Problem, p: seq<nat>, i: nat, s: Tree, first: bool)
    requires ScanInv(pr, p, i, s, first)
    requires TreeShape(pr, p, i, Shift(p, s, s.minv[s.j0].d))
    ensures TreeFeasible(pr, p, i, Shift(p, s, s.minv[s.j0].d))
  {
    hide Slackness, PathTight;
    var delta := s.minv[s.j0].d;
    var s' := Shift(p, s, delta);
    forall r, j | 1 <= r <= i && 1 <= j <= pr.m
      ensures Reduced(pr, s'.u, s'.v, r, j) >= 0.0
    {
      ShiftedReduced(pr, p, i, s, delta, r, j);
      if InTree(p, s.visited, r) && j !in s.visited {
        var k :| 0 <= k < |s.visited| && p[s.visited[k]] == r;
        assert Scanned(pr, p, i, s, j);
      } else if r == i {
        assert p[s.visited[0]] == i;
      } else {
        assert FeasibleRow(pr, s.u, s.v, r);
      }
    }
  }

  lemma ShiftSlackness(pr: Problem, p: seq<nat>, i: nat, s: Tree, first: bool)
    requires ScanInv(pr, p, i, s, first)
    ensures Slackness(pr, Shift(p, s, s.minv[s.j0].d).u, Shift(p, s, s.minv[s.j0].d).v, p)
  {
    var delta := s.minv[s.j0].d;
    var s' := Shift(p, s, delta);
    forall j | 1 <= j <= pr.m
      ensures p[j] != 0 ==> Reduced(pr, s'.u, s'.v, p[j], j) == 0.0
      ensures s'.v[j] <= 0.0 && (p[j] == 0 ==> s'.v[j] == 0.0)
    {
      if p[j] != 0 {
        TreeRow(p, s.visited, i, j);
        ShiftedReduced(pr, p, i, s, delta, p[j], j);
      }
    }
  }

  /** Seen from a tree column, every reduced cost into a column outside the tree falls by delta. */
  lemma ShiftedTreeEdge(pr: Problem, p: seq<nat>, i: nat, s: Tree, delta: real, c: nat, j: nat)
    requires TreeShape(pr, p, i, s) && c in s.visited && 1 <= j <= pr.m && j !in s.visited
    ensures
      var s' := Shift(p, s, delta);
      Reduced(pr, s'.u, s'.v, p[c], j) == Reduced(pr, s.u, s.v, p[c], j) - delta
  {
    TreeRow(p, s.visited, i, c);
    ShiftedReduced(pr, p, i, s, delta, p[c], j);
  }

  lemma ShiftColumn(pr: Problem, p: seq<nat>, i: nat, s: Tree, delta: real, j: nat)
    requires TreeShape(pr, p, i, s) && 1 <= j <= pr.m && j !in s.visited
    requires Scanned(pr, p, i, s, j) && delta <= s.minv[j].d
    requires TreeShape(pr, p, i, Shift(p, s, delta))
    ensures SlackAt(pr, p, i, Shift(p, s, delta), j)
  {
    hide Reduced, RowsDistinct, Distinct, InTree;
    var s' := Shift(p, s, delta);
    assert s'.minv[j] == Fin(s.minv[j].d - delta) && s'.way[j] == s.way[j] && s'.visited == s.visited;
    forall k | 0 <= k < |s'.visited|
      ensures s'.minv[j].d <= Reduced(pr, s'.u, s'.v, p[s'.visited[k]], j)
    {
      ShiftedTreeEdge(pr, p, i, s, delta, s.visited[k], j);
    }
    ShiftedTreeEdge(pr, p, i, s, delta, s.way[j], j);
  }

  lemma ShiftPath(pr: Problem, p: seq<nat>, i: nat, s: Tree, first: bool)
    requires ScanInv(pr, p, i, s, first)
    requires TreeShape(pr, p, i, Shift(p, s, s.minv[s.j0].d))
    ensures PathTight(pr, p, i, Shift(p, s, s.minv[s.j0].d))
  {
    hide FeasibleRows, Slackness, Scanned, Reduced, RowsDistinct, Distinct;
    var delta := s.minv[s.j0].d;
    var s' := Shift(p, s, delta);
    forall k | 1 <= k < |s'.visited|
      ensures PathEdge(pr, p, i, s', k)
    {
      var j := s.visited[k];
      assert PathEdge(pr, p, i, s, k);
      assert s.way[j] in s.visited[..k];
      TreeRow(p, s.visited, i, s.way[j]);
      ShiftedReduced(pr, p, i, s, delta, p[s.way[j]], j);
    }
  }

  lemma ShiftKeeps(pr: Problem, p: seq<nat>, i: nat, s: Tree, first: bool)
    requires ScanInv(pr, p, i, s, first)
    ensures TreeInv(pr, p, i, Shift(p, s, s.minv[s.j0].d))
  {
    hide TreeFeasible, FeasibleRows, FeasibleRow, Slackness, PathTight, Reduced, SlackAt, Scanned;
    var s' := Shift(p, s, s.minv[s.j0].d);
    assert TreeShape(pr, p, i, s');
    ShiftFeasible(pr, p, i, s, first);
    ShiftSlackness(pr, p, i, s, first);
    ShiftPath(pr, p, i, s, first);
    forall j | 1 <= j <= pr.m && j !in s'.visited
      ensures SlackAt(pr, p, i, s', j)
    {
      ShiftColumn(pr, p, i, s, s.minv[s.j0].d, j);
    }
  }

  /** One whole round (lines 89-108). */
  function Grow(pr: Problem, p: seq<nat>, i: nat, t: Tree): (t': Tree)
    requires TreeInv(pr, p, i, t) && p[t.j0] != 0
    ensures TreeInv(pr, p, i, t') && t'.visited == t.visited + [t.j0]
  {
    ScanKeeps(pr, p, i, t);
    var s := Scan(pr, p, t);
    ShiftKeeps(pr, p, i, s, t.visited == []);
    Shift(p, s, s.minv[s.j0].d)
  }

  /** Lines 87-109: grow the tree until a free column is reached. */
  function Search(pr: Problem, p: seq<nat>, i: nat, t: Tree): (t': Tree)
    requires TreeInv(pr, p, i, t)
    ensures TreeInv(pr, p, i, t') && p[t'.j0] == 0
    decreases pr.m + 1 - |t.visited|
  {
    VisitedCount(pr, p, i, t);
    if p[t.j0] == 0 then t
    else
      var t' := Grow(pr, p, i, t);
      VisitedCount(pr, p, i, t');
      Search(pr, p, i, t')
  }

  // ----- the back-walk

  /** Position of a column in the search order; the free column comes last. */
  ghost function Rank(t: Tree, j: nat): (k: nat)
    requires j == t.j0 || j in t.visited
    ensures k <= |t.visited|
    ensures j in t.visited ==> k < |t.visited| && t.visited[k] == j
    ensures j !in t.visited ==> k == |t.visited|
  {
    if j in t.visited then var k :| 0 <= k < |t.visited| && t.visited[k] == j; k else |t.visited|
  }

  ghost predicate HeldOutside(p: seq<nat>, hole: nat, r: nat) {
    exists j :: 0 <= j < |p| && j != hole && p[j] == r
  }

  /** The columns other than `hole` hold the rows 1..i, each once. */
  ghost predicate HoleMatching(p: seq<nat>, i: nat, hole: nat) {
    && (forall j :: 0 <= j < |p| ==> p[j] <= i)
    && (forall a, b :: 0 <= a < b < |p| && a != hole && b != hole && p[a] != 0 ==> p[a] != p[b])
    && (forall r :: 1 <= r <= i ==> HeldOutside(p, hole, r))
  }

  /** The columns other than `hole` are matched on tight edges, or free and without potential. */
  ghost predicate HoleTight(pr: Problem, t: Tree, p: seq<nat>, hole: nat)
    requires pr.Valid() && DualShape(pr, t.u, t.v) && |p| == pr.m + 1
    requires forall j :: 0 <= j < |p| ==> p[j] <= pr.n
  {
    forall j :: 1 <= j <= pr.m && j != hole ==>
      if p[j] != 0 then Reduced(pr, t.u, t.v, p[j], j) == 0.0 else t.v[j] == 0.0
  }

  /** The columns reached by the search before `hole` are as it left them. */
  ghost predicate EarlierKept(p0: seq<nat>, t: Tree, p: seq<nat>, hole: nat)
    requires hole == t.j0 || hole in t.visited
  {
    forall k :: 0 <= k < Rank(t, hole) ==>
      t.visited[k] < |p| && t.visited[k] < |p0| && p[t.visited[k]] == p0[t.visited[k]]
  }

  ghost predicate WalkInv(pr: Problem, p0: seq<nat>, i: nat, t: Tree, p: seq<nat>, hole: nat) {
    && pr.Valid() && DualShape(pr, t.u, t.v)
    && |p0| == |p| == pr.m + 1 && hole <= pr.m && i <= pr.n
    && (hole == t.j0 || hole in t.visited)
    && HoleMatching(p, i, hole)
    && HoleTight(pr, t, p, hole)
    && EarlierKept(p0, t, p, hole)
  }

  /** The tree edge into a column leaves a column reached before it, and is tight. */
  lemma WalkEdge(pr: Problem, p0: seq<nat>, i: nat, t: Tree, hole: nat)
    requires TreeInv(pr, p0, i, t) && hole != 0 && (hole == t.j0 || hole in t.visited)
    ensures t.way[hole] in t.visited[..Rank(t, hole)]
    ensures Rank(t, t.way[hole]) < Rank(t, hole)
    ensures 1 <= p0[t.way[hole]] <= pr.n && Reduced(pr, t.u, t.v, p0[t.way[hole]], hole) == 0.0
  {
    var k := Rank(t, hole);
    if hole in t.visited {
      assert PathEdge(pr, p0, i, t, k);
    } else {
      assert SlackAt(pr, p0, i, t, hole);
      assert t.visited[..k] == t.visited;
    }
  }

  /** Moving the row of column `next` into the hole moves the hole to `next`. */
  lemma MoveHole(p: seq<nat>, i: nat, hole: nat, next: nat)
    requires HoleMatching(p, i, hole) && hole < |p| && next < |p| && next != hole && p[next] != 0
    ensures HoleMatching(p[hole := p[next]], i, next)
  {
    var q := p[hole := p[next]];
    forall r | 1 <= r <= i
      ensures HeldOutside(q, next, r)
    {
      assert HeldOutside(p, hole, r);
      var j :| 0 <= j < |p| && j != hole && p[j] == r;
      assert q[if j == next then hole else j] == r;
    }
  }

  lemma KeptStep(p0: seq<nat>, t: Tree, p: seq<nat>, hole: nat, next: nat, row: nat)
    requires Distinct(t.visited)
    requires (hole == t.j0 || hole in t.visited) && next in t.visited && Rank(t, next) < Rank(t, hole)
    requires hole < |p| && EarlierKept(p0, t, p, hole)
    ensures EarlierKept(p0, t, p[hole := row], next)
  {
    forall k | 0 <= k < Rank(t, next)
      ensures t.visited[k] != hole
    {
      if hole in t.visited {
        assert t.visited[Rank(t, hole)] == hole;
      }
    }
  }

  lemma TightStep(pr: Problem, t: Tree, p: seq<nat>, hole: nat, next: nat)
    requires pr.Valid() && DualShape(pr, t.u, t.v) && |p| == pr.m + 1
    requires forall j :: 0 <= j < |p| ==> p[j] <= pr.n
    requires HoleTight(pr, t, p, hole) && 1 <= hole <= pr.m && next <= pr.m && p[next] != 0
    requires Reduced(pr, t.u, t.v, p[next], hole) == 0.0
    ensures HoleTight(pr, t, p[hole := p[next]], next)
  {
  }

  lemma WalkStep(pr: Problem, p0: seq<nat>, i: nat, t: Tree, p: seq<nat>, hole: nat, next: nat)
    requires WalkInv(pr, p0, i, t, p, hole) && hole != 0
    requires Distinct(t.visited)
    requires next <= pr.m && next in t.visited && Rank(t, next) < Rank(t, hole)
    requires 1 <= p0[next] <= pr.n && Reduced(pr, t.u, t.v, p0[next], hole) == 0.0
    ensures WalkInv(pr, p0, i, t, p[hole := p[next]], next)
  {
    assert t.visited[Rank(t, next)] == next && p[next] == p0[next];
    MoveHole(p, i, hole, next);
    KeptStep(p0, t, p, hole, next, p[next]);
    TightStep(pr, t, p, hole, next);
  }

  /** Lines 111-116: shift the rows along the tree path until the virtual column is reached. */
  function Augment(pr: Problem, p0: seq<nat>, i: nat, t: Tree, p: seq<nat>, hole: nat): (p': seq<nat>)
    requires TreeInv(pr, p0, i, t) && WalkInv(pr, p0, i, t, p, hole)
    ensures WalkInv(pr, p0, i, t, p', 0)
    decreases Rank(t, hole)
  {
    if hole == 0 then p
    else
      WalkEdge(pr, p0, i, t, hole);
      WalkStep(pr, p0, i, t, p, hole, t.way[hole]);
      Augment(pr, p0, i, t, p[hole := p[t.way[hole]]], t.way[hole])
  }

  // ----- a whole row, and all rows

  /** Lines 82-85: the new row sits in the virtual column and nothing is reached yet. */
  function Start(pr: Problem, s: Duals): Tree {
    Tree(s.u, s.v, seq(pr.m + 1, _ => Inf), s.way, [], 0)
  }

  lemma StartInv(pr: Problem, s: Duals, k: nat)
    requires DualsInv(pr, s, k) && k < pr.n
    ensures TreeInv(pr, s.p[0 := k + 1], k + 1, Start(pr, s))
    ensures RowsCovered(s.p[0 := k + 1], 0, k + 1)
  {
    var p := s.p[0 := k + 1];
    forall r | 1 <= r <= k + 1
      ensures HasRow(p, 0, r)
    {
      if r == k + 1 {
        assert p[0] == r;
      } else {
        assert HasRow(s.p, 1, r);
        var j :| 1 <= j < |s.p| && s.p[j] == r;
        assert p[j] == r;
      }
    }
  }

  lemma WalkStart(pr: Problem, p: seq<nat>, i: nat, t: Tree)
    requires TreeInv(pr, p, i, t) && p[t.j0] == 0 && RowsCovered(p, 0, i)
    ensures WalkInv(pr, p, i, t, p, t.j0)
  {
    forall r | 1 <= r <= i
      ensures HeldOutside(p, t.j0, r)
    {
      assert HasRow(p, 0, r);
    }
  }

  lemma WalkEnd(pr: Problem, p0: seq<nat>, i: nat, t: Tree, p: seq<nat>)
    requires TreeInv(pr, p0, i, t) && WalkInv(pr, p0, i, t, p, 0) && t.visited != []
    ensures DualsInv(pr, Duals(t.u, t.v, p, t.way), i)
  {
    forall r | 1 <= r <= i
      ensures HasRow(p, 1, r)
    {
      assert HeldOutside(p, 0, r);
    }
  }

  /** The search for row i has reached a free column. */
  ghost predicate Reached(pr: Problem, p: seq<nat>, i: nat, t: Tree) {
    exists j :: 0 <= j < |p| && p[j] == 0 && j == t.j0 && TreeInv(pr, p, i, t) && RowsCovered(p, 0, i)
  }

  function RowTree(pr: Problem, s: Duals, k: nat): (t: Tree)
    requires DualsInv(pr, s, k) && k < pr.n
    ensures Reached(pr, s.p[0 := k + 1], k + 1, t)
  {
    StartInv(pr, s, k);
    Search(pr, s.p[0 := k + 1], k + 1, Start(pr, s))
  }

  function Match(pr: Problem, p: seq<nat>, i: nat, t: Tree): (s: Duals)
    requires Reached(pr, p, i, t)
    ensures DualsInv(pr, s, i)
  {
    WalkStart(pr, p, i, t);
    var p' := Augment(pr, p, i, t, p, t.j0);
    WalkEnd(pr, p, i, t, p');
    Duals(t.u, t.v, p', t.way)
  }

  lemma RowInRange(pr: Problem, s: Duals, k: nat)
    requires DualsInv(pr, s, k)
    ensures |s.p| == pr.m + 1 && pr.Valid() && forall j :: 1 <= j < |s.p| ==> s.p[j] <= k
  {
    hide FeasibleRows, RowsCovered, Slackness;
  }

  /** The matching with row k+1 in the virtual column, and the tree grown from there. */
  function Seat(pr: Problem, s: Duals, k: nat): (r: (seq<nat>, Tree))
    requires DualsInv(pr, s, k) && k < pr.n
    ensures Reached(pr, r.0, k + 1, r.1)
  {
    (s.p[0 := k + 1], RowTree(pr, s, k))
  }

  function Augmented(pr: Problem, s: Duals, k: nat): Duals
    requires DualsInv(pr, s, k) && k < pr.n
  {
    var r := Seat(pr, s, k);
    Match(pr, r.0, k + 1, r.1)
  }

  lemma AugmentedKeeps(pr: Problem, s: Duals, k: nat)
    requires DualsInv(pr, s, k) && k < pr.n
    ensures DualsInv(pr, Augmented(pr, s, k), k + 1)
  {
    hide DualsInv, Reached, Match, Seat;
  }

  /** One iteration of the loop of line 80 for row k+1. */
  function AddRow(pr: Problem, s: Duals, k: nat): (s': Duals)
    requires DualsInv(pr, s, k) && k < pr.n
    ensures DualsInv(pr, s', k + 1)
  {
    AugmentedKeeps(pr, s, k);
    Augmented(pr, s, k)
  }

  function Rows(pr: Problem, k: nat): (s: Duals)
    requires pr.Valid() && k <= pr.n
    ensures DualsInv(pr, s, k)
  {
    if k == 0 then
      Duals(seq(pr.n + 1, _ => 0.0), seq(pr.m + 1, _ => 0.0), seq(pr.m + 1, _ => 0), seq(pr.m + 1, _ => 0))
    else AddRow(pr, Rows(pr, k - 1), k - 1)
  }

  /** The column, counted from 0, that holds row r among the columns 1..k; -1 when none does. */
  function ColumnOf(p: seq<nat>, r: nat, k: nat): (c: int)
    requires k < |p| && 1 <= r
    ensures -1 <= c < k
    ensures c == -1 ==> forall j :: 1 <= j <= k ==> p[j] != r
    ensures c != -1 ==> p[c + 1] == r
  {
    if k == 0 then -1 else if p[k] == r then k - 1 else ColumnOf(p, r, k - 1)
  }

  /** Lines 119-124. */
  function ReadOff(p: seq<nat>, n: nat): seq<int>
    requires |p| > 0
  {
    seq(n, r requires 0 <= r < n => ColumnOf(p, r + 1, |p| - 1))
  }

  /** The assignment `hungarian` returns. */
  function Solve(pr: Problem): seq<int>
    requires pr.Valid()
  {
    ReadOff(Rows(pr, pr.n).p, pr.n)
  }

  lemma DualsFeasible(pr: Problem, d: Duals)
    requires DualsInv(pr, d, pr.n)
    ensures DualFeasible(pr, d.u, d.v)
  {
    forall i, j | 1 <= i <= pr.n && 1 <= j <= pr.m
      ensures d.u[i] + d.v[j] <= At(pr, i, j)
    {
      assert FeasibleRow(pr, d.u, d.v, i);
      assert Reduced(pr, d.u, d.v, i, j) >= 0.0;
    }
  }

  lemma ReadOffTight(pr: Problem, d: Duals, r: nat)
    requires DualsInv(pr, d, pr.n) && r < pr.n
    ensures
      var c := ReadOff(d.p, pr.n)[r];
      0 <= c < pr.m && d.p[c + 1] == r + 1 && d.u[r + 1] + d.v[c + 1] == At(pr, r + 1, c + 1)
  {
    var c := ReadOff(d.p, pr.n)[r];
    assert HasRow(d.p, 1, r + 1);
    assert Reduced(pr, d.u, d.v, d.p[c + 1], c + 1) == 0.0;
  }

  lemma ReadOffFree(pr: Problem, d: Duals, j: nat)
    requires DualsInv(pr, d, pr.n) && 1 <= j <= pr.m
    ensures j - 1 in Image(ReadOff(d.p, pr.n)) || d.v[j] == 0.0
  {
    if d.p[j] != 0 {
      ReadOffTight(pr, d, d.p[j] - 1);
      assert ReadOff(d.p, pr.n)[d.p[j] - 1] == j - 1;
    }
  }

  lemma ReadOffSize(pr: Problem, d: Duals)
    requires DualsInv(pr, d, pr.n)
    ensures pr.Valid() && |d.p| == pr.m + 1 && DualShape(pr, d.u, d.v) && |ReadOff(d.p, pr.n)| == pr.n
  {
    hide FeasibleRows, Slackness, RowsCovered, RowsDistinct;
  }

  lemma ReadOffAssigns(pr: Problem, d: Duals)
    requires DualsInv(pr, d, pr.n)
    ensures
      var s := ReadOff(d.p, pr.n);
      IsAssignment(pr, s) && forall r :: 0 <= r < |s| ==> d.u[r + 1] + d.v[s[r] + 1] == At(pr, r + 1, s[r] + 1)
  {
    hide At, ReadOff, DualsInv;
    ReadOffSize(pr, d);
    var s := ReadOff(d.p, pr.n);
    forall r | 0 <= r < pr.n
      ensures 0 <= s[r] < pr.m && d.p[s[r] + 1] == r + 1
      ensures d.u[r + 1] + d.v[s[r] + 1] == At(pr, r + 1, s[r] + 1)
    {
      ReadOffTight(pr, d, r);
    }
  }

  lemma ReadOffOptimal(pr: Problem, d: Duals)
    requires DualsInv(pr, d, pr.n)
    ensures Optimal(pr, ReadOff(d.p, pr.n))
  {
    var s := ReadOff(d.p, pr.n);
    ReadOffAssigns(pr, d);
    forall j | 1 <= j <= pr.m
      ensures j - 1 in Image(s) || d.v[j] == 0.0
    {
      ReadOffFree(pr, d, j);
    }
    DualsFeasible(pr, d);
    SlacknessOptimal(pr, d.u, d.v, s);
  }

  /** No other assignment of the rows to columns of their own is cheaper. */
  lemma SolveOptimal(pr: Problem)
    requires pr.Valid()
    ensures Optimal(pr, Solve(pr))
  {
    ReadOffOptimal(pr, Rows(pr, pr.n));
  }
}
