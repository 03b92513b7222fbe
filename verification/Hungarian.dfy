/** The in-place assignment algorithm of helpers/track_manager.hpp:74-125. Every loop is proved
    to compute its function in HungarianSpec. */
module Hungarian {
  import opened Assignment
  import opened HungarianSpec

  ghost predicate Marks(used: seq<bool>, visited: seq<nat>) {
    forall j :: 0 <= j < |used| ==> (used[j] <==> j in visited)
  }

  /** The arrays hold the tree t. */
  ghost predicate Holds(u: array<real>, v: array<real>, way: array<nat>, minv: array<Dist>, used: array<bool>, t: Tree)
    reads u, v, way, minv, used
  {
    u[..] == t.u && v[..] == t.v && way[..] == t.way && minv[..] == t.minv && Marks(used[..], t.visited)
  }

  lemma HoldsMeans(u: array<real>, v: array<real>, way: array<nat>, minv: array<Dist>, used: array<bool>, t: Tree)
    ensures Holds(u, v, way, minv, used, t) <==>
            u[..] == t.u && v[..] == t.v && way[..] == t.way && minv[..] == t.minv && Marks(used[..], t.visited)
  {
  }

  lemma MarkAt(used: seq<bool>, visited: seq<nat>, j: nat)
    requires Marks(used, visited) && j < |used|
    ensures used[j] <==> j in visited
  {
  }

  lemma NoMarks(used: seq<bool>)
    requires forall j :: 0 <= j < |used| ==> !used[j]
    ensures Marks(used, [])
  {
  }

  /** `a` holds the first j entries of `done` and the rest of `todo`. */
  ghost predicate Split<T>(a: seq<T>, done: seq<T>, todo: seq<T>, j: nat) {
    && |a| == |done| == |todo| && j <= |a|
    && (forall k :: 0 <= k < j ==> a[k] == done[k])
    && (forall k :: j <= k < |a| ==> a[k] == todo[k])
  }

  lemma SplitStart<T>(done: seq<T>, todo: seq<T>, j: nat)
    requires |done| == |todo| && j <= |done| && forall k :: 0 <= k < j ==> done[k] == todo[k]
    ensures Split(todo, done, todo, j)
  {
  }

  lemma SplitStep<T>(a: seq<T>, a': seq<T>, done: seq<T>, todo: seq<T>, j: nat)
    requires Split(a, done, todo, j) && j < |a| && a' == a[j := done[j]]
    ensures Split(a', done, todo, j + 1)
  {
  }

  lemma SplitMeans<T>(a: seq<T>, done: seq<T>, todo: seq<T>, j: nat)
    requires Split(a, done, todo, j)
    ensures |a| == |done| == |todo| && j <= |a|
    ensures j < |a| ==> a[j] == todo[j]
    ensures j == |a| ==> a == done
  {
  }

  /** The scan's body (lines 96-99) yields the slack and the way of column j. */
  lemma RelaxedColumn(pr: Problem, p: seq<nat>, t: Tree, j: nat)
    requires pr.Valid() && DualShape(pr, t.u, t.v) && |t.minv| == |t.way| == pr.m + 1
    requires t.j0 < |p| && 1 <= p[t.j0] <= pr.n && j <= pr.m
    ensures
      var s := Scan(pr, p, t);
      && |s.minv| == |s.way| == pr.m + 1 && s.j0 == FirstMin(s.minv, s.visited, pr.m)
      && if j == 0 || j in s.visited then s.minv[j] == t.minv[j] && s.way[j] == t.way[j]
         else
           var cur := Fin(Reduced(pr, t.u, t.v, p[t.j0], j));
           if Less(cur, t.minv[j]) then s.minv[j] == cur && s.way[j] == t.j0
           else s.minv[j] == t.minv[j] && s.way[j] == t.way[j]
  {
    hide Reduced, FirstMin;
  }

  /** Lines 91-100: look at every unused column from the row of j0. `s` is the scanned tree. */
  method Relax(pr: Problem, u: array<real>, v: array<real>, p: array<nat>,
               way: array<nat>, minv: array<Dist>, used: array<bool>, j0: nat, ghost t: Tree, ghost s: Tree)
    returns (delta: Dist, j1: nat)
    requires pr.Valid() && DualShape(pr, t.u, t.v)
    requires |t.minv| == |t.way| == p.Length == used.Length == pr.m + 1
    requires u[..] == t.u && v[..] == t.v && way[..] == t.way && minv[..] == t.minv
    requires j0 == t.j0 <= pr.m && 1 <= p[j0] <= pr.n
    requires s == Scan(pr, p[..], t) && Marks(used[..], s.visited)
    requires way != p
    modifies way, minv
    ensures way[..] == s.way && minv[..] == s.minv && j1 == s.j0
    ensures delta == if j1 == 0 then Inf else s.minv[j1]
  {
    hide HungarianSpec.Scan, At, Split, FirstMin;
    ghost var rows := p[..];
    var i0 := p[j0];
    delta, j1 := Inf, 0;
    RelaxedColumn(pr, rows, t, 0);
    SplitStart(s.minv, t.minv, 1);
    SplitStart(s.way, t.way, 1);
    FirstMinUnfold(s.minv, s.visited, 0);
    for j := 1 to pr.m + 1
      invariant Split(minv[..], s.minv, t.minv, j) && Split(way[..], s.way, t.way, j)
      invariant j1 == FirstMin(s.minv, s.visited, j - 1)
      invariant delta == if j1 == 0 then Inf else s.minv[j1]
    {
      assert used[..][j] <==> j in s.visited;
      RelaxedColumn(pr, rows, t, j);
      FirstMinUnfold(s.minv, s.visited, j);
      ghost var minv0, way0 := minv[..], way[..];
      SplitMeans(minv0, s.minv, t.minv, j);
      SplitMeans(way0, s.way, t.way, j);
      if !used[j] {
        var cur := Fin(At(pr, i0, j) - u[i0] - v[j]);
        if Less(cur, minv[j]) { minv[j] := cur; way[j] := j0; }
        if Less(minv[j], delta) { delta := minv[j]; j1 := j; }
      }
      SplitStep(minv0, minv[..], s.minv, t.minv, j);
      SplitStep(way0, way[..], s.way, t.way, j);
    }
    SplitMeans(minv[..], s.minv, t.minv, pr.m + 1);
    SplitMeans(way[..], s.way, t.way, pr.m + 1);
  }

  lemma FirstMinUnfold(minv: seq<Dist>, visited: seq<nat>, k: nat)
    requires k < |minv|
    ensures FirstMin(minv, visited, k) ==
            if k == 0 then 0
            else
              var b := FirstMin(minv, visited, k - 1);
              if k !in visited && Less(minv[k], if b == 0 then Inf else minv[b]) then k else b
  {
  }

  ghost predicate InTreeBelow(p: seq<nat>, visited: seq<nat>, bound: nat, r: nat)
    requires bound <= |p|
  {
    exists c :: 0 <= c < bound && c in visited && p[c] == r
  }

  /** The row potentials once the tree columns below `bound` have been handled. */
  ghost function Raised(u: seq<real>, p: seq<nat>, visited: seq<nat>, delta: real, bound: nat): seq<real>
    requires bound <= |p|
  {
    seq(|u|, r requires 0 <= r < |u| => if InTreeBelow(p, visited, bound, r) then u[r] + delta else u[r])
  }

  lemma RaisedStep(u: seq<real>, p: seq<nat>, visited: seq<nat>, delta: real, j: nat)
    requires j < |p|
    requires j in visited ==> p[j] < |u| && forall c :: 0 <= c < j ==> p[c] != p[j]
    ensures
      var before := Raised(u, p, visited, delta, j);
      Raised(u, p, visited, delta, j + 1) == if j in visited then before[p[j] := before[p[j]] + delta] else before
  {
    forall r: nat
      ensures InTreeBelow(p, visited, j + 1, r) <==> InTreeBelow(p, visited, j, r) || (j in visited && p[j] == r)
    {
    }
  }

  lemma RaisedAll(p: seq<nat>, s: Tree, delta: real)
    requires |s.minv| == |s.v| && forall k :: 0 <= k < |s.visited| ==> s.visited[k] < |p|
    ensures Raised(s.u, p, s.visited, delta, |p|) == Shift(p, s, delta).u
    ensures Raised(s.u, p, s.visited, delta, 0) == s.u
  {
    forall r: nat
      ensures InTree(p, s.visited, r) <==> InTreeBelow(p, s.visited, |p|, r)
    {
      if InTree(p, s.visited, r) {
        var k :| 0 <= k < |s.visited| && p[s.visited[k]] == r;
        assert s.visited[k] in s.visited;
      }
    }
  }

  /** The visited columns are columns, the rows are rows, and no column before a visited one has its row. */
  ghost predicate ColumnsApart(p: seq<nat>, visited: seq<nat>, rows: nat) {
    && (forall k :: 0 <= k < |visited| ==> visited[k] < |p|)
    && (forall a, b :: 0 <= a < b < |p| && b in visited ==> p[a] != p[b])
    && (forall j :: 0 <= j < |p| ==> p[j] < rows)
  }

  lemma ApartAt(p: seq<nat>, visited: seq<nat>, rows: nat, j: nat)
    requires ColumnsApart(p, visited, rows) && j < |p|
    ensures forall k :: 0 <= k < |visited| ==> visited[k] < |p|
    ensures p[j] < rows && (j in visited ==> forall c :: 0 <= c < j ==> p[c] != p[j])
  {
  }

  /** Columns below j have been handled. */
  ghost predicate Moved(u: seq<real>, v: seq<real>, minv: seq<Dist>, p: seq<nat>, s: Tree, delta: real, j: nat)
    requires ApartColumns(p, s, j)
  {
    var s' := Shift(p, s, delta);
    && u == Raised(s.u, p, s.visited, delta, j)
    && Split(v, s'.v, s.v, j) && Split(minv, s'.minv, s.minv, j)
  }

  lemma MovedStart(p: seq<nat>, s: Tree, delta: real)
    requires |s.minv| == |s.v| && forall k :: 0 <= k < |s.visited| ==> s.visited[k] < |p|
    ensures Moved(s.u, s.v, s.minv, p, s, delta, 0)
  {
    RaisedAll(p, s, delta);
    var s' := Shift(p, s, delta);
    SplitStart(s'.v, s.v, 0);
    SplitStart(s'.minv, s.minv, 0);
  }

  lemma MovedStep(u: seq<real>, v: seq<real>, minv: seq<Dist>, u': seq<real>, v': seq<real>, minv': seq<Dist>,
                  p: seq<nat>, s: Tree, delta: real, j: nat)
    requires |s.minv| == |s.v| == |p| && j < |p| && ColumnsApart(p, s.visited, |s.u|)
    requires ApartColumns(p, s, j) && Moved(u, v, minv, p, s, delta, j)
    requires |u| == |s.u| && |v| == |minv| == |p| && p[j] < |u|
    requires u' == if j in s.visited then u[p[j] := u[p[j]] + delta] else u
    requires v' == v[j := if j in s.visited then v[j] - delta else v[j]]
    requires minv' == minv[j := if j in s.visited then minv[j] else Minus(minv[j], delta)]
    ensures ApartColumns(p, s, j + 1) && Moved(u', v', minv', p, s, delta, j + 1)
  {
    hide Shift, Raised, Split, ColumnsApart;
    ApartAt(p, s.visited, |s.u|, j);
    var s' := Shift(p, s, delta);
    RaisedStep(s.u, p, s.visited, delta, j);
    ShiftedColumn(p, s, delta, j);
    SplitMeans(v, s'.v, s.v, j);
    SplitMeans(minv, s'.minv, s.minv, j);
    SplitStep(v, v', s'.v, s.v, j);
    SplitStep(minv, minv', s'.minv, s.minv, j);
  }

  lemma MovedEnd(u: seq<real>, v: seq<real>, minv: seq<Dist>, p: seq<nat>, s: Tree, delta: real)
    requires |s.minv| == |s.v| == |p| && ApartColumns(p, s, |p|) && Moved(u, v, minv, p, s, delta, |p|)
    ensures var s' := Shift(p, s, delta); u == s'.u && v == s'.v && minv == s'.minv
  {
    RaisedAll(p, s, delta);
    hide Raised;
  }

  /** Lines 104-105, for one column. */
  method MoveColumn(u: array<real>, v: array<real>, p: array<nat>, minv: array<Dist>, used: array<bool>,
                    delta: real, j: nat, ghost s: Tree)
    requires j < p.Length == used.Length == |s.minv| == |s.v| && u != v
    requires ColumnsApart(p[..], s.visited, |s.u|) && Marks(used[..], s.visited)
    requires u.Length == |s.u| && v.Length == minv.Length == p.Length
    requires ApartColumns(p[..], s, j) && Moved(u[..], v[..], minv[..], p[..], s, delta, j)
    modifies u, v, minv
    ensures p[..] == old(p[..]) && used[..] == old(used[..])
    ensures ApartColumns(p[..], s, j + 1) && Moved(u[..], v[..], minv[..], p[..], s, delta, j + 1)
  {
    hide Shift, Moved, ColumnsApart, Marks;
    MarkAt(used[..], s.visited, j);
    ApartAt(p[..], s.visited, |s.u|, j);
    ghost var u0, v0, minv0 := u[..], v[..], minv[..];
    if used[j] {
      u[p[j]] := u[p[j]] + delta;
      v[j] := v[j] - delta;
    } else {
      minv[j] := Minus(minv[j], delta);
    }
    MovedStep(u0, v0, minv0, u[..], v[..], minv[..], p[..], s, delta, j);
  }

  /** What Moved needs to make sense. */
  ghost predicate ApartColumns(p: seq<nat>, s: Tree, j: nat) {
    |s.minv| == |s.v| && j <= |p| && forall k :: 0 <= k < |s.visited| ==> s.visited[k] < |p|
  }

  lemma ApartMeans(p: seq<nat>, s: Tree, j: nat)
    requires |s.minv| == |s.v| && j <= |p| && ColumnsApart(p, s.visited, |s.u|)
    ensures ApartColumns(p, s, j)
  {
  }

  /** Lines 102-106: raise the rows of the tree and lower its columns. */
  method MovePotentials(u: array<real>, v: array<real>, p: array<nat>,
                        minv: array<Dist>, used: array<bool>, delta: real, ghost s: Tree)
    requires p.Length == used.Length == |s.minv| == |s.v|
    requires ColumnsApart(p[..], s.visited, |s.u|)
    requires u[..] == s.u && v[..] == s.v && minv[..] == s.minv && Marks(used[..], s.visited)
    requires u != v
    modifies u, v, minv
    ensures var s' := Shift(p[..], s, delta); u[..] == s'.u && v[..] == s'.v && minv[..] == s'.minv
  {
    ghost var rows, marks := p[..], used[..];
    ApartMeans(rows, s, 0);
    MovedStart(rows, s, delta);
    hide Shift, Moved, ColumnsApart, Marks, ApartColumns;
    for j := 0 to p.Length
      invariant p[..] == rows && used[..] == marks
      invariant ApartColumns(rows, s, j) && Moved(u[..], v[..], minv[..], rows, s, delta, j)
    {
      MoveColumn(u, v, p, minv, used, delta, j, s);
    }
    MovedEnd(u[..], v[..], minv[..], rows, s, delta);
  }

  /** What moving the potentials does to one column. */
  lemma ShiftedColumn(p: seq<nat>, s: Tree, delta: real, j: nat)
    requires |s.minv| == |s.v| && j < |s.v| && ColumnsApart(p, s.visited, |s.u|)
    ensures var s' := Shift(p, s, delta);
            && |s'.v| == |s'.minv| == |s.v|
            && s'.v[j] == (if j in s.visited then s.v[j] - delta else s.v[j])
            && s'.minv[j] == (if j in s.visited then s.minv[j] else Minus(s.minv[j], delta))
  {
    hide InTree;
  }

  /** What a round needs of its tree so that no access is out of range and no row moves twice. */
  ghost predicate Ready(pr: Problem, p: seq<nat>, t: Tree) {
    && pr.Valid() && DualShape(pr, t.u, t.v)
    && |t.minv| == |t.way| == |p| == pr.m + 1
    && t.j0 <= pr.m && 1 <= p[t.j0] <= pr.n
    && (forall j :: 0 <= j < |p| ==> p[j] <= pr.n)
    && (forall k :: 0 <= k < |t.visited| ==> t.visited[k] < |p|)
    && (forall a, b :: 0 <= a < b < |p| && (b in t.visited || b == t.j0) ==> p[a] != p[b])
    && var s := Scan(pr, p, t); s.j0 != 0 && s.minv[s.j0].Fin?
  }

  lemma TreeReady(pr: Problem, p: seq<nat>, i: nat, t: Tree)
    requires TreeInv(pr, p, i, t) && p[t.j0] != 0
    ensures Ready(pr, p, t)
    ensures Grow(pr, p, i, t) == Shift(p, Scan(pr, p, t), Scan(pr, p, t).minv[Scan(pr, p, t).j0].d)
  {
    ScanShape(pr, p, i, t);
    forall a, b | 0 <= a < b < |p| && (b in t.visited || b == t.j0)
      ensures p[a] != p[b]
    {
      assert p[b] != 0;
    }
  }

  /** Lines 89-108: one round of the search; `s` is the tree after the scan. */
  method Round(pr: Problem, u: array<real>, v: array<real>, p: array<nat>, way: array<nat>,
               minv: array<Dist>, used: array<bool>, j0: nat, ghost t: Tree, ghost s: Tree)
    returns (j1: nat)
    requires Ready(pr, p[..], t) && s == Scan(pr, p[..], t)
    requires p.Length == used.Length && j0 == t.j0
    requires Holds(u, v, way, minv, used, t)
    requires u != v && way != p
    modifies u, v, way, minv, used
    ensures var s' := Shift(p[..], s, s.minv[s.j0].d);
            Holds(u, v, way, minv, used, s') && j1 == s'.j0
    ensures p[..] == old(p[..])
  {
    used[j0] := true;
    assert Marks(used[..], s.visited);
    var delta;
    delta, j1 := Relax(pr, u, v, p, way, minv, used, j0, t, s);
    MovePotentials(u, v, p, minv, used, delta.d, s);
  }

  lemma SearchStep(pr: Problem, p: seq<nat>, i: nat, t: Tree)
    requires TreeInv(pr, p, i, t) && p[t.j0] != 0
    ensures Search(pr, p, i, t) == Search(pr, p, i, Grow(pr, p, i, t))
  {
    hide TreeInv, Grow;
  }

  lemma SearchDone(pr: Problem, p: seq<nat>, i: nat, t: Tree)
    requires TreeInv(pr, p, i, t) && p[t.j0] == 0
    ensures Search(pr, p, i, t) == t
  {
    hide TreeInv, Grow;
  }

  /** Lines 82-109: grow the alternating tree of row i until it reaches a free column. */
  method SearchRow(pr: Problem, i: nat, u: array<real>, v: array<real>, p: array<nat>, way: array<nat>,
                   ghost start: Tree)
    returns (j0: nat)
    requires p.Length == pr.m + 1 && TreeInv(pr, p[..], i, start)
    requires start.visited == [] && |start.minv| == pr.m + 1 && forall j :: 0 <= j <= pr.m ==> start.minv[j] == Inf
    requires u[..] == start.u && v[..] == start.v && way[..] == start.way
    requires u != v && way != p
    modifies u, v, way
    ensures var t := Search(pr, p[..], i, start);
            u[..] == t.u && v[..] == t.v && way[..] == t.way && j0 == t.j0
  {
    ghost var rows := p[..];
    hide *;
    ghost var t := start;
    j0 := 0;
    var minv := new Dist[pr.m + 1](_ => Inf);
    var used := new bool[pr.m + 1](_ => false);
    NoMarks(used[..]);
    assert minv[..] == start.minv;
    HoldsMeans(u, v, way, minv, used, t);
    VisitedCount(pr, rows, i, t);
    while p[j0] != 0
      invariant p[..] == rows && TreeInv(pr, rows, i, t) && j0 <= pr.m && j0 == t.j0
      invariant Search(pr, rows, i, t) == Search(pr, rows, i, start)
      invariant Holds(u, v, way, minv, used, t)
      decreases pr.m + 1 - |t.visited|
    {
      VisitedCount(pr, rows, i, t);
      TreeReady(pr, rows, i, t);
      j0 := Round(pr, u, v, p, way, minv, used, j0, t, Scan(pr, rows, t));
      SearchStep(pr, rows, i, t);
      t := Grow(pr, rows, i, t);
      VisitedCount(pr, rows, i, t);
    }
    SearchDone(pr, rows, i, t);
    HoldsMeans(u, v, way, minv, used, t);
  }

  /** Lines 111-116: the rows move one step along the tree path, from the free column back. */
  method WalkBack(ghost pr: Problem, p: array<nat>, way: array<nat>, start: nat, ghost i: nat, ghost t: Tree)
    requires TreeInv(pr, p[..], i, t) && start == t.j0 && p[start] == 0
    requires WalkInv(pr, p[..], i, t, p[..], start)
    requires p != way && way[..] == t.way
    modifies p
    ensures p[..] == Augment(pr, old(p[..]), i, t, old(p[..]), start)
  {
    ghost var p0 := p[..];
    var j0 := start;
    while j0 != 0
      invariant WalkInv(pr, p0, i, t, p[..], j0) && way[..] == t.way
      invariant Augment(pr, p0, i, t, p[..], j0) == Augment(pr, p0, i, t, p0, start)
      decreases Rank(t, j0)
    {
      WalkEdge(pr, p0, i, t, j0);
      WalkStep(pr, p0, i, t, p[..], j0, t.way[j0]);
      var j1 := way[j0];
      ghost var before := p[..];
      p[j0] := p[j1];
      assert p[..] == before[j0 := before[j1]];
      j0 := j1;
    }
  }

  /** Lines 82-116: one more row. */
  method AddRowInPlace(pr: Problem, i: nat, u: array<real>, v: array<real>, p: array<nat>, way: array<nat>,
                       ghost d: Duals)
    requires 1 <= i <= pr.n && DualsInv(pr, d, i - 1)
    requires d == Duals(u[..], v[..], p[..], way[..])
    requires u != v && way != p
    modifies u, v, p, way
    ensures Duals(u[..], v[..], p[..], way[..]) == AddRow(pr, d, i - 1)
  {
    hide Slackness, FeasibleRows, Slacks, PathTight, Search, Augment, HoleMatching, HoleTight, EarlierKept;
    p[0] := i;
    ghost var rows := d.p[0 := i];
    assert p[..] == rows;
    StartInv(pr, d, i - 1);
    ghost var t := RowTree(pr, d, i - 1);
    var j0 := SearchRow(pr, i, u, v, p, way, Start(pr, d));
    WalkStart(pr, rows, i, t);
    WalkBack(pr, p, way, j0, i, t);
  }

  /** Lines 119-124. */
  method RowToColumn(p: array<nat>, n: nat) returns (rowToCol: seq<int>)
    requires p.Length > 0 && forall j :: 1 <= j < p.Length ==> p[j] <= n
    ensures rowToCol == ReadOff(p[..], n)
  {
    var result := new int[n](_ => -1);
    ghost var rows := p[..];
    for j := 1 to p.Length
      invariant p[..] == rows
      invariant forall r :: 0 <= r < n ==> result[r] == ColumnOf(rows, r + 1, j - 1)
    {
      if p[j] != 0 { result[p[j] - 1] := j - 1; }
    }
    rowToCol := result[..];
  }

  /** Lines 80-124 on a well-shaped problem. */
  method SolveInPlace(pr: Problem) returns (rowToCol: seq<int>)
    requires pr.Valid()
    ensures rowToCol == Solve(pr)
  {
    hide HungarianSpec.AddRow, HungarianSpec.DualsInv;
    var u := new real[pr.n + 1](_ => 0.0);
    var v := new real[pr.m + 1](_ => 0.0);
    var p := new nat[pr.m + 1](_ => 0);
    var way := new nat[pr.m + 1](_ => 0);
    ghost var d := Rows(pr, 0);
    for i := 1 to pr.n + 1
      invariant d == Rows(pr, i - 1) && DualsInv(pr, d, i - 1) && d == Duals(u[..], v[..], p[..], way[..])
    {
      AddRowInPlace(pr, i, u, v, p, way, d);
      d := AddRow(pr, d, i - 1);
    }
    RowInRange(pr, d, pr.n);
    rowToCol := RowToColumn(p, pr.n);
  }

  /** Minimum-cost assignment of n rows to m columns: for every row, its column. */
  method Hungarian(cost: seq<real>, n: nat, m: nat) returns (rowToCol: seq<int>)
    requires n <= m && |cost| == n * m
    ensures rowToCol == Solve(Problem(cost, n, m))
    ensures Optimal(Problem(cost, n, m), rowToCol)
  {
    rowToCol := SolveInPlace(Problem(cost, n, m));
    SolveOptimal(Problem(cost, n, m));
  }
}
