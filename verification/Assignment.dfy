/** Assignment problems, injective assignments and their totals; weak duality for the
    dual variables kept by helpers/track_manager.hpp. */
module Assignment {

  /** A row-major n*m cost matrix with no more rows than columns. */
  datatype Problem = Problem(cost: seq<real>, n: nat, m: nat) {
    predicate Valid() {
      n <= m && |cost| == n * m
    }
  }

  lemma IndexInRange(i: nat, j: nat, n: nat, m: nat)
    requires i < n && j < m
    ensures 0 <= i * m + j < n * m
  {
    assert n * m == (n - 1) * m + m;
    assert i * m <= (n - 1) * m;
  }

  /** The cost of row i and column j, both counted from 1. */
  function At(pr: Problem, i: nat, j: nat): real
    requires pr.Valid() && 1 <= i <= pr.n && 1 <= j <= pr.m
  {
    IndexInRange(i - 1, j - 1, pr.n, pr.m);
    pr.cost[(i - 1) * pr.m + (j - 1)]
  }

  /** s sends every row to a column of its own; rows and columns are counted from 0. */
  ghost predicate IsAssignment(pr: Problem, s: seq<int>) {
    && |s| == pr.n
    && (forall i :: 0 <= i < |s| ==> 0 <= s[i] < pr.m)
    && (forall i, k :: 0 <= i < k < |s| ==> s[i] != s[k])
  }

  /** Total cost of the first |s| rows under s. */
  ghost function Total(pr: Problem, s: seq<int>): real
    requires pr.Valid() && |s| <= pr.n
    requires forall i :: 0 <= i < |s| ==> 0 <= s[i] < pr.m
  {
    if s == [] then 0.0
    else Total(pr, s[..|s| - 1]) + At(pr, |s|, s[|s| - 1] + 1)
  }

  ghost predicate Optimal(pr: Problem, s: seq<int>)
    requires pr.Valid()
  {
    && IsAssignment(pr, s)
    && forall other :: IsAssignment(pr, other) ==> Total(pr, s) <= Total(pr, other)
  }

  // ----- pigeonhole

  lemma {:induction false} Pigeonhole(s: seq<nat>, k: nat)
    requires forall i :: 0 <= i < |s| ==> s[i] < k
    requires forall i, j :: 0 <= i < j < |s| ==> s[i] != s[j]
    ensures |s| <= k
  {
    if |s| > 0 {
      assert 0 <= s[0] < k;
      if k - 1 in s {
        var i :| 0 <= i < |s| && s[i] == k - 1;
        Pigeonhole(s[..i] + s[i + 1..], k - 1);
      } else {
        Pigeonhole(s, k - 1);
      }
    }
  }

  // ----- sums of column potentials

  /** Sum of v over the columns below `bound` that belong to `cols`; v is indexed from 1. */
  ghost function ColumnSum(v: seq<real>, cols: set<int>, bound: nat): real
    requires bound < |v|
  {
    if bound == 0 then 0.0
    else ColumnSum(v, cols, bound - 1) + (if bound - 1 in cols then v[bound] else 0.0)
  }

  /** Sum of v over the columns of an assignment. */
  ghost function PotentialOf(v: seq<real>, s: seq<int>): real
    requires forall i :: 0 <= i < |s| ==> 0 <= s[i] < |v| - 1
  {
    if s == [] then 0.0 else PotentialOf(v, s[..|s| - 1]) + v[s[|s| - 1] + 1]
  }

  /** Sum of u over the first k rows; u is indexed from 1. */
  ghost function RowSum(u: seq<real>, k: nat): real
    requires k < |u|
  {
    if k == 0 then 0.0 else RowSum(u, k - 1) + u[k]
  }

  lemma {:induction false} ColumnSumInsert(v: seq<real>, cols: set<int>, c: int, bound: nat)
    requires bound < |v| && 0 <= c && c !in cols
    ensures ColumnSum(v, cols + {c}, bound) == ColumnSum(v, cols, bound) + (if c < bound then v[c + 1] else 0.0)
  {
    if bound > 0 {
      ColumnSumInsert(v, cols, c, bound - 1);
    }
  }

  lemma {:induction false} ColumnSumEmpty(v: seq<real>, bound: nat)
    requires bound < |v|
    ensures ColumnSum(v, {}, bound) == 0.0
  {
    if bound > 0 {
      ColumnSumEmpty(v, bound - 1);
    }
  }

  ghost function Image(s: seq<int>): set<int> {
    set i | 0 <= i < |s| :: s[i]
  }

  lemma {:induction false} PotentialIsColumnSum(v: seq<real>, s: seq<int>)
    requires |v| > 0
    requires forall i :: 0 <= i < |s| ==> 0 <= s[i] < |v| - 1
    requires forall i, k :: 0 <= i < k < |s| ==> s[i] != s[k]
    ensures PotentialOf(v, s) == ColumnSum(v, Image(s), |v| - 1)
  {
    if s == [] {
      ColumnSumEmpty(v, |v| - 1);
      assert Image(s) == {};
    } else {
      var front, c := s[..|s| - 1], s[|s| - 1];
      PotentialIsColumnSum(v, front);
      assert Image(s) == Image(front) + {c};
      ColumnSumInsert(v, Image(front), c, |v| - 1);
    }
  }

  lemma {:induction false} ColumnSumLeast(v: seq<real>, a: set<int>, b: set<int>, bound: nat)
    requires bound < |v|
    requires forall j :: 1 <= j < |v| ==> v[j] <= 0.0 && (j - 1 in a || v[j] == 0.0)
    ensures ColumnSum(v, a, bound) <= ColumnSum(v, b, bound)
  {
    if bound > 0 {
      ColumnSumLeast(v, a, b, bound - 1);
    }
  }

  // ----- weak duality

  ghost predicate DualFeasible(pr: Problem, u: seq<real>, v: seq<real>)
    requires pr.Valid()
  {
    && |u| == pr.n + 1 && |v| == pr.m + 1
    && forall i, j :: 1 <= i <= pr.n && 1 <= j <= pr.m ==> u[i] + v[j] <= At(pr, i, j)
  }

  lemma {:induction false} TotalAtLeastDual(pr: Problem, u: seq<real>, v: seq<real>, s: seq<int>)
    requires pr.Valid() && DualFeasible(pr, u, v)
    requires |s| <= pr.n && forall i :: 0 <= i < |s| ==> 0 <= s[i] < pr.m
    ensures RowSum(u, |s|) + PotentialOf(v, s) <= Total(pr, s)
  {
    if s != [] {
      TotalAtLeastDual(pr, u, v, s[..|s| - 1]);
    }
  }

  lemma {:induction false} TightTotal(pr: Problem, u: seq<real>, v: seq<real>, s: seq<int>)
    requires pr.Valid() && |u| == pr.n + 1 && |v| == pr.m + 1
    requires |s| <= pr.n && forall i :: 0 <= i < |s| ==> 0 <= s[i] < pr.m
    requires forall i :: 0 <= i < |s| ==> u[i + 1] + v[s[i] + 1] == At(pr, i + 1, s[i] + 1)
    ensures Total(pr, s) == RowSum(u, |s|) + PotentialOf(v, s)
  {
    if s != [] {
      TightTotal(pr, u, v, s[..|s| - 1]);
    }
  }

  /** Complementary slackness: an assignment on tight edges whose free columns carry no
      potential is cheapest of all. */
  lemma SlacknessOptimal(pr: Problem, u: seq<real>, v: seq<real>, s: seq<int>)
    requires pr.Valid() && DualFeasible(pr, u, v) && IsAssignment(pr, s)
    requires forall i :: 0 <= i < |s| ==> u[i + 1] + v[s[i] + 1] == At(pr, i + 1, s[i] + 1)
    requires forall j :: 1 <= j <= pr.m ==> v[j] <= 0.0 && (j - 1 in Image(s) || v[j] == 0.0)
    ensures Optimal(pr, s)
  {
    forall other | IsAssignment(pr, other)
      ensures Total(pr, s) <= Total(pr, other)
    {
      TightTotal(pr, u, v, s);
      TotalAtLeastDual(pr, u, v, other);
      PotentialIsColumnSum(v, s);
      PotentialIsColumnSum(v, other);
      ColumnSumLeast(v, Image(s), Image(other), pr.m);
    }
  }
}
