/** What a cheapest assignment says about the admissible pairs when every inadmissible pair
    costs a prohibitive amount (helpers/track_manager.hpp:185-209). */
module GatedAssignment {
  import opened Assignment

  const BIG: real := 1000000.0

  /** Every pair is either prohibitive or costs between 0 and 1. */
  ghost predicate Gated(pr: Problem) {
    pr.Valid() && forall i, j :: 1 <= i <= pr.n && 1 <= j <= pr.m ==>
      At(pr, i, j) == BIG || 0.0 <= At(pr, i, j) <= 1.0
  }

  /** A row and a column, both counted from 0. */
  datatype Cell = Cell(row: nat, col: nat)

  /** Admissible cells, no two in a row or in a column. */
  ghost predicate IsMatching(pr: Problem, s: seq<Cell>)
    requires pr.Valid()
  {
    && (forall k :: 0 <= k < |s| ==> s[k].row < pr.n && s[k].col < pr.m && At(pr, s[k].row + 1, s[k].col + 1) < BIG)
    && (forall a, b :: 0 <= a < b < |s| ==> s[a].row != s[b].row && s[a].col != s[b].col)
  }

  ghost function MatchingCost(pr: Problem, s: seq<Cell>): real
    requires pr.Valid()
    requires forall k :: 0 <= k < |s| ==> s[k].row < pr.n && s[k].col < pr.m
  {
    if s == [] then 0.0
    else MatchingCost(pr, s[..|s| - 1]) + At(pr, s[|s| - 1].row + 1, s[|s| - 1].col + 1)
  }

  /** The admissible cells of the first k rows of an assignment, in row order. */
  ghost function Kept(pr: Problem, a: seq<int>, k: nat): (s: seq<Cell>)
    requires pr.Valid() && IsAssignment(pr, a) && k <= pr.n
    ensures |s| <= k
    ensures forall c :: 0 <= c < |s| ==>
      s[c].row < k && s[c].col == a[s[c].row] && s[c].col < pr.m && At(pr, s[c].row + 1, s[c].col + 1) < BIG
    ensures forall c, d :: 0 <= c < d < |s| ==> s[c].row < s[d].row
  {
    if k == 0 then []
    else Kept(pr, a, k - 1) + (if At(pr, k, a[k - 1] + 1) < BIG then [Cell(k - 1, a[k - 1])] else [])
  }

  lemma {:induction false} KeptHas(pr: Problem, a: seq<int>, k: nat, r: nat)
    requires pr.Valid() && IsAssignment(pr, a) && r < k <= pr.n
    requires At(pr, r + 1, a[r] + 1) < BIG
    ensures Cell(r, a[r]) in Kept(pr, a, k)
  {
    if r < k - 1 {
      KeptHas(pr, a, k - 1, r);
    } else {
      assert Kept(pr, a, k)[|Kept(pr, a, k - 1)|] == Cell(r, a[r]);
    }
  }

  lemma KeptIsMatching(pr: Problem, a: seq<int>)
    requires pr.Valid() && IsAssignment(pr, a)
    ensures IsMatching(pr, Kept(pr, a, pr.n))
  {
    var s := Kept(pr, a, pr.n);
    forall c, d | 0 <= c < d < |s|
      ensures s[c].row != s[d].row && s[c].col != s[d].col
    {
      assert a[s[c].row] != a[s[d].row];
    }
  }

  lemma GatedCell(pr: Problem, a: seq<int>, k: nat)
    requires Gated(pr) && IsAssignment(pr, a) && 1 <= k <= pr.n
    ensures At(pr, k, a[k - 1] + 1) <= BIG
  {
  }

  lemma KeptCost(pr: Problem, a: seq<int>, k: nat)
    requires pr.Valid() && IsAssignment(pr, a) && 1 <= k <= pr.n
    ensures
      var s, before := Kept(pr, a, k), Kept(pr, a, k - 1);
      var cost := At(pr, k, a[k - 1] + 1);
      if cost < BIG then |s| == |before| + 1 && MatchingCost(pr, s) == MatchingCost(pr, before) + cost
      else s == before
  {
    var s, before := Kept(pr, a, k), Kept(pr, a, k - 1);
    if At(pr, k, a[k - 1] + 1) < BIG {
      assert s[..|s| - 1] == before && s[|s| - 1] == Cell(k - 1, a[k - 1]);
    }
  }

  lemma TotalPrefix(pr: Problem, a: seq<int>, k: nat)
    requires pr.Valid() && IsAssignment(pr, a) && 1 <= k <= pr.n
    ensures Total(pr, a[..k]) == Total(pr, a[..k - 1]) + At(pr, k, a[k - 1] + 1)
  {
    assert a[..k][..k - 1] == a[..k - 1];
  }

  /** An assignment costs what its admissible cells cost plus BIG for every other row. */
  lemma {:induction false} TotalOfKept(pr: Problem, a: seq<int>, k: nat)
    requires Gated(pr) && IsAssignment(pr, a) && k <= pr.n
    ensures Total(pr, a[..k]) == MatchingCost(pr, Kept(pr, a, k)) + (k - |Kept(pr, a, k)|) as real * BIG
  {
    if k > 0 {
      hide Gated, At, Kept, MatchingCost, Total;
      TotalOfKept(pr, a, k - 1);
      TotalPrefix(pr, a, k);
      GatedCell(pr, a, k);
      KeptCost(pr, a, k);
    }
  }

  // ----- extending a matching to an assignment

  /** Some rows have a column of their own, the others have -1. */
  ghost predicate Partial(pr: Problem, f: seq<int>) {
    && |f| == pr.n
    && (forall i :: 0 <= i < |f| ==> -1 <= f[i] < pr.m)
    && (forall i, k :: 0 <= i < k < |f| && f[i] != -1 ==> f[i] != f[k])
  }

  /** Cost of the first k rows when a row without column costs BIG. */
  ghost function Penal(pr: Problem, f: seq<int>, k: nat): real
    requires pr.Valid() && Partial(pr, f) && k <= pr.n
  {
    if k == 0 then 0.0
    else Penal(pr, f, k - 1) + (if f[k - 1] == -1 then BIG else At(pr, k, f[k - 1] + 1))
  }

  lemma {:induction false} PenalSet(pr: Problem, f: seq<int>, r: nat, c: nat, k: nat)
    requires pr.Valid() && Partial(pr, f) && k <= pr.n && r < pr.n && c < pr.m
    requires f[r] == -1 && Partial(pr, f[r := c])
    ensures Penal(pr, f[r := c], k) == Penal(pr, f, k) + (if r < k then At(pr, r + 1, c + 1) - BIG else 0.0)
  {
    if k > 0 {
      PenalSet(pr, f, r, c, k - 1);
    }
  }

  lemma {:induction false} PenalEmpty(pr: Problem, k: nat)
    requires pr.Valid() && k <= pr.n && Partial(pr, seq(pr.n, _ => -1))
    ensures Penal(pr, seq(pr.n, _ => -1), k) == k as real * BIG
  {
    if k > 0 {
      PenalEmpty(pr, k - 1);
    }
  }

  lemma {:induction false} PenalIsTotal(pr: Problem, f: seq<int>, k: nat)
    requires pr.Valid() && IsAssignment(pr, f) && k <= pr.n
    ensures Penal(pr, f, k) == Total(pr, f[..k])
  {
    if k > 0 {
      PenalIsTotal(pr, f, k - 1);
      assert f[..k][..k - 1] == f[..k - 1];
    }
  }

  /** A matching as a partial assignment. */
  lemma {:induction false} Place(pr: Problem, s: seq<Cell>) returns (f: seq<int>)
    requires pr.Valid() && IsMatching(pr, s)
    ensures Partial(pr, f)
    ensures forall r :: 0 <= r < pr.n && f[r] != -1 ==> Cell(r, f[r]) in s
    ensures Penal(pr, f, pr.n) == MatchingCost(pr, s) + (pr.n - |s|) as real * BIG
  {
    hide At, Penal;
    if s == [] {
      f := seq(pr.n, _ => -1);
      PenalEmpty(pr, pr.n);
    } else {
      var front, last := s[..|s| - 1], s[|s| - 1];
      var g := Place(pr, front);
      assert forall k :: 0 <= k < |front| ==> front[k] == s[k] && s[k].row != last.row && s[k].col != last.col;
      f := g[last.row := last.col];
      PenalSet(pr, g, last.row, last.col, pr.n);
    }
  }

  /** A partial assignment that leaves a row open leaves a column open. */
  lemma OpenColumn(pr: Problem, f: seq<int>, r: nat)
    requires pr.Valid() && Partial(pr, f) && r < pr.n && f[r] == -1
    ensures exists c: nat :: c < pr.m && c !in f
  {
    if forall c: nat :: c < pr.m ==> c in f {
      var at: seq<nat> := seq(pr.m, c requires 0 <= c < pr.m =>
        assert c in f; var i :| 0 <= i < |f| && f[i] == c; if i > r then i - 1 else i);
      forall a, b | 0 <= a < b < |at|
        ensures at[a] != at[b]
      {
      }
      Pigeonhole(at, pr.n - 1);
    }
  }

  /** Opening rows get free columns; this never costs more than leaving them open. */
  lemma {:induction false} Complete(pr: Problem, f: seq<int>, k: nat) returns (g: seq<int>)
    requires Gated(pr) && Partial(pr, f) && k <= pr.n && forall i :: 0 <= i < k ==> f[i] != -1
    ensures IsAssignment(pr, g) && Penal(pr, g, pr.n) <= Penal(pr, f, pr.n)
    decreases pr.n - k
  {
    if k == pr.n {
      g := f;
    } else if f[k] == -1 {
      OpenColumn(pr, f, k);
      var c: nat :| c < pr.m && c !in f;
      PenalSet(pr, f, k, c, pr.n);
      g := Complete(pr, f[k := c], k + 1);
    } else {
      g := Complete(pr, f, k + 1);
    }
  }

  lemma {:induction false} CostNonNegative(pr: Problem, s: seq<Cell>)
    requires Gated(pr) && IsMatching(pr, s)
    ensures 0.0 <= MatchingCost(pr, s) <= |s| as real
  {
    if s != [] {
      var last := s[|s| - 1];
      CostNonNegative(pr, s[..|s| - 1]);
      assert At(pr, last.row + 1, last.col + 1) < BIG;
    }
  }

  /** The admissible cells of a cheapest assignment: no matching has more cells, and none of
      the same size is cheaper. */
  lemma KeptBest(pr: Problem, a: seq<int>, s: seq<Cell>)
    requires Gated(pr) && Optimal(pr, a) && pr.n as real < BIG && IsMatching(pr, s)
    ensures
      var kept := Kept(pr, a, pr.n);
      && |s| <= |kept|
      && (|s| == |kept| ==> MatchingCost(pr, kept) <= MatchingCost(pr, s))
  {
    var kept := Kept(pr, a, pr.n);
    var f := Place(pr, s);
    var g := Complete(pr, f, 0);
    PenalIsTotal(pr, g, pr.n);
    assert g[..pr.n] == g && a[..pr.n] == a;
    TotalOfKept(pr, a, pr.n);
    assert MatchingCost(pr, kept) + (pr.n - |kept|) as real * BIG
        <= MatchingCost(pr, s) + (pr.n - |s|) as real * BIG;
    KeptIsMatching(pr, a);
    CostNonNegative(pr, kept);
    CostNonNegative(pr, s);
    MatchingShort(pr, s);
    assert |s| > |kept| ==> (pr.n - |kept|) as real * BIG >= (pr.n - |s|) as real * BIG + BIG;
  }

  lemma MatchingShort(pr: Problem, s: seq<Cell>)
    requires pr.Valid() && IsMatching(pr, s)
    ensures |s| <= pr.n
  {
    var rows: seq<nat> := seq(|s|, k requires 0 <= k < |s| => s[k].row);
    Pigeonhole(rows, pr.n);
  }
}
