/** Boxes, tracks and the per-class association of helpers/track_manager.hpp. */
module Association {
  import opened Basics
  import opened Observations
  import opened Assignment
  import opened HungarianSpec
  import opened GatedAssignment

  // ----- boxes

  datatype Box = Box(x: real, y: real, w: real, h: real)

  function Max(a: real, b: real): real { if a < b then b else a }

  function Min(a: real, b: real): real { if b < a then b else a }

  function Share(part: real, whole: real): real {
    if whole > 0.0 then part / whole else 0.0
  }

  function Area(w: real, h: real): real {
    w * h
  }

  /** Overlap over union, for an overlap of iw by ih. */
  function Ratio(iw: real, ih: real, a: Box, b: Box): real {
    if iw <= 0.0 || ih <= 0.0 then 0.0
    else Share(Area(iw, ih), Area(a.w, a.h) + Area(b.w, b.h) - Area(iw, ih))
  }

  /** Intersection over union (lines 55-68). */
  function Iou(a: Box, b: Box): real {
    Ratio(Min(a.x + a.w, b.x + b.w) - Max(a.x, b.x), Min(a.y + a.h, b.y + b.h) - Max(a.y, b.y), a, b)
  }

  lemma AreaMonotone(a: real, b: real, c: real, d: real)
    requires 0.0 <= a <= c && 0.0 <= b <= d
    ensures 0.0 <= Area(a, b) <= Area(c, d)
  {
    assert a * b <= c * b by { assert (c - a) * b >= 0.0; }
    assert c * b <= c * d by { assert c * (d - b) >= 0.0; }
  }

  lemma ShareInUnit(part: real, whole: real)
    requires 0.0 <= part && (whole > 0.0 ==> part <= whole)
    ensures 0.0 <= Share(part, whole) <= 1.0
  {
    if whole > 0.0 {
      assert part / whole * whole == part;
    }
  }

  lemma OverlapWithin(ax: real, aw: real, bx: real, bw: real)
    ensures Min(ax + aw, bx + bw) - Max(ax, bx) <= aw
    ensures Min(ax + aw, bx + bw) - Max(ax, bx) <= bw
  {
  }

  lemma RatioRange(iw: real, ih: real, a: Box, b: Box)
    requires iw <= a.w && iw <= b.w && ih <= a.h && ih <= b.h
    ensures 0.0 <= Ratio(iw, ih, a, b) <= 1.0
  {
    hide Share, Area;
    if iw > 0.0 && ih > 0.0 {
      AreaMonotone(iw, ih, a.w, a.h);
      AreaMonotone(iw, ih, b.w, b.h);
      ShareInUnit(Area(iw, ih), Area(a.w, a.h) + Area(b.w, b.h) - Area(iw, ih));
    }
  }

  /** The overlap of two boxes never exceeds either of them, whatever their sizes. */
  lemma IouInUnit(a: Box, b: Box)
    ensures 0.0 <= Iou(a, b) <= 1.0
  {
    OverlapWithin(a.x, a.w, b.x, b.w);
    OverlapWithin(a.y, a.h, b.y, b.h);
    hide Min, Max, Ratio;
    RatioRange(Min(a.x + a.w, b.x + b.w) - Max(a.x, b.x), Min(a.y + a.h, b.y + b.h) - Max(a.y, b.y), a, b);
  }

  // ----- tracks (lines 284-330)

  datatype Track = Track(
    id: int, cls: string, x: real, y: real, w: real, h: real, vx: real, vy: real,
    hits: nat, misses: nat, confirmed: bool)

  datatype Config = Config(confirmHits: int, maxMisses: int, iouMin: real, minConf: real)

  function Predicted(t: Track): Box {
    var steps := (t.misses + 1) as real;
    Box(t.x + t.vx * steps, t.y + t.vy * steps, t.w, t.h)
  }

  function BoxOf(o: Observation): Box {
    Box(o.x, o.y, o.w, o.h)
  }

  // ----- the gated cost matrix (lines 180-197)

  /** 1 - IoU for a pair that passes the gate, BIG for one that does not. */
  function PairCost(cfg: Config, t: Track, o: Observation): (c: real)
  {
    var v := Iou(Predicted(t), BoxOf(o));
    if v >= cfg.iouMin then 1.0 - v else BIG
  }

  lemma PairCostRange(cfg: Config, t: Track, o: Observation)
    ensures PairCost(cfg, t, o) == BIG || 0.0 <= PairCost(cfg, t, o) <= 1.0
    ensures PairCost(cfg, t, o) < BIG <==> Iou(Predicted(t), BoxOf(o)) >= cfg.iouMin
    ensures PairCost(cfg, t, o) < BIG ==> PairCost(cfg, t, o) == 1.0 - Iou(Predicted(t), BoxOf(o))
  {
    hide Iou, Predicted;
    IouInUnit(Predicted(t), BoxOf(o));
  }

  /** Rows are the smaller side; ties make the tracks the rows. */
  predicate RowsAreTracks(ts: seq<Track>, ds: seq<Observation>) {
    |ts| <= |ds|
  }

  function CellCost(cfg: Config, ts: seq<Track>, ds: seq<Observation>, row: nat, col: nat): real
    requires if RowsAreTracks(ts, ds) then row < |ts| && col < |ds| else row < |ds| && col < |ts|
  {
    if RowsAreTracks(ts, ds) then PairCost(cfg, ts[row], ds[col]) else PairCost(cfg, ts[col], ds[row])
  }

  lemma QuotientUnique(q: nat, r: nat, a: nat, b: nat, m: nat)
    requires q * m + r == a * m + b && r < m && b < m
    ensures q == a && r == b
  {
    if q < a {
      MulMonotone(q + 1, a, m);
    } else if a < q {
      MulMonotone(a + 1, q, m);
    }
  }

  lemma DivModOf(a: nat, b: nat, m: nat)
    requires b < m
    ensures (a * m + b) / m == a && (a * m + b) % m == b
  {
    var k := a * m + b;
    QuotientUnique(k / m, k % m, a, b, m);
  }

  lemma DivInRange(k: nat, n: nat, m: nat)
    requires k < n * m
    ensures m > 0 && k / m < n && k % m < m && k == k / m * m + k % m
  {
    if n <= k / m {
      MulMonotone(n, k / m, m);
    }
  }

  lemma RowAndColumn(k: nat, n: nat, m: nat)
    requires k < n * m
    ensures m > 0 && 0 <= k / m < n && 0 <= k % m < m
  {
    DivInRange(k, n, m);
  }

  /** Entry k of the flat matrix. */
  function FlatCost(cfg: Config, ts: seq<Track>, ds: seq<Observation>, n: nat, m: nat, k: nat): real
    requires n == (if RowsAreTracks(ts, ds) then |ts| else |ds|) && m == (if RowsAreTracks(ts, ds) then |ds| else |ts|)
    requires k < n * m
  {
    RowAndColumn(k, n, m);
    CellCost(cfg, ts, ds, k / m, k % m)
  }

  /** The costs row by row. */
  function FlatCosts(cfg: Config, ts: seq<Track>, ds: seq<Observation>, n: nat, m: nat): (cost: seq<real>)
    requires n == (if RowsAreTracks(ts, ds) then |ts| else |ds|) && m == (if RowsAreTracks(ts, ds) then |ds| else |ts|)
    ensures |cost| == n * m
  {
    seq(n * m, k requires 0 <= k < n * m => FlatCost(cfg, ts, ds, n, m, k))
  }

  function CostMatrix(cfg: Config, ts: seq<Track>, ds: seq<Observation>): (pr: Problem)
    ensures pr.Valid()
    ensures pr.n == (if RowsAreTracks(ts, ds) then |ts| else |ds|)
    ensures pr.m == (if RowsAreTracks(ts, ds) then |ds| else |ts|)
  {
    var n, m := if RowsAreTracks(ts, ds) then |ts| else |ds|, if RowsAreTracks(ts, ds) then |ds| else |ts|;
    Problem(FlatCosts(cfg, ts, ds, n, m), n, m)
  }

  /** Entry k of the flat matrix is the cost of row k/m and column k%m. */
  lemma CostMatrixEntry(cfg: Config, ts: seq<Track>, ds: seq<Observation>, k: nat) returns (row: nat, col: nat)
    requires k < |CostMatrix(cfg, ts, ds).cost|
    ensures row < CostMatrix(cfg, ts, ds).n && col < CostMatrix(cfg, ts, ds).m
    ensures k == row * CostMatrix(cfg, ts, ds).m + col
    ensures CostMatrix(cfg, ts, ds).cost[k] == CellCost(cfg, ts, ds, row, col)
  {
    hide CostMatrix, CellCost;
    row, col := FlatIndex(CostMatrix(cfg, ts, ds), k);
    CostMatrixAt(cfg, ts, ds, row, col);
  }

  lemma FlatIndex(pr: Problem, k: nat) returns (row: nat, col: nat)
    requires pr.Valid() && k < |pr.cost|
    ensures row < pr.n && col < pr.m && k == row * pr.m + col
  {
    DivInRange(k, pr.n, pr.m);
    row, col := k / pr.m, k % pr.m;
  }

  lemma CostMatrixAt(cfg: Config, ts: seq<Track>, ds: seq<Observation>, row: nat, col: nat)
    requires row < CostMatrix(cfg, ts, ds).n && col < CostMatrix(cfg, ts, ds).m
    ensures At(CostMatrix(cfg, ts, ds), row + 1, col + 1) == CellCost(cfg, ts, ds, row, col)
  {
    hide CellCost;
    var pr := CostMatrix(cfg, ts, ds);
    IndexInRange(row, col, pr.n, pr.m);
    DivModOf(row, col, pr.m);
  }

  lemma CostMatrixGated(cfg: Config, ts: seq<Track>, ds: seq<Observation>)
    ensures Gated(CostMatrix(cfg, ts, ds))
  {
    hide CostMatrix, PairCost, At;
    var pr := CostMatrix(cfg, ts, ds);
    forall i, j | 1 <= i <= pr.n && 1 <= j <= pr.m
      ensures At(pr, i, j) == BIG || 0.0 <= At(pr, i, j) <= 1.0
    {
      CostMatrixAt(cfg, ts, ds, i - 1, j - 1);
      if RowsAreTracks(ts, ds) {
        PairCostRange(cfg, ts[i - 1], ds[j - 1]);
      } else {
        PairCostRange(cfg, ts[j - 1], ds[i - 1]);
      }
    }
  }

  // ----- association inside one class (lines 199-209)

  /** The track of detection d when rows are tracks: the row among the first k that took it. */
  function RowOf(pr: Problem, a: seq<int>, d: nat, k: nat): (t: int)
    requires pr.Valid() && IsAssignment(pr, a) && k <= pr.n
    ensures -1 <= t < k
    ensures t == -1 ==> forall r :: 0 <= r < k ==> a[r] != d || At(pr, r + 1, a[r] + 1) >= BIG
    ensures t != -1 ==> a[t] == d && At(pr, t + 1, a[t] + 1) < BIG
  {
    if k == 0 then -1
    else if a[k - 1] == d && At(pr, k, a[k - 1] + 1) < BIG then k - 1
    else RowOf(pr, a, d, k - 1)
  }

  /** For every detection the index of its track, or -1, read off an assignment. */
  function AssocFrom(pr: Problem, a: seq<int>, rowsAreTracks: bool): (dt: seq<int>)
    requires pr.Valid() && IsAssignment(pr, a)
    ensures |dt| == (if rowsAreTracks then pr.m else pr.n)
    ensures forall d :: 0 <= d < |dt| ==> -1 <= dt[d] < (if rowsAreTracks then pr.n else pr.m)
    ensures forall d, e :: 0 <= d < e < |dt| && dt[d] != -1 ==> dt[d] != dt[e]
  {
    if rowsAreTracks then seq(pr.m, d requires 0 <= d < pr.m => RowOf(pr, a, d, pr.n))
    else seq(pr.n, d requires 0 <= d < pr.n => if At(pr, d + 1, a[d] + 1) < BIG then a[d] else -1)
  }

  function LocalAssoc(cfg: Config, ts: seq<Track>, ds: seq<Observation>): (dt: seq<int>)
    ensures |dt| == |ds|
    ensures forall d :: 0 <= d < |ds| ==> -1 <= dt[d] < |ts|
    ensures forall d, e :: 0 <= d < e < |ds| && dt[d] != -1 ==> dt[d] != dt[e]
  {
    if ts == [] || ds == [] then seq(|ds|, _ => -1)
    else
      SolveOptimal(CostMatrix(cfg, ts, ds));
      AssocFrom(CostMatrix(cfg, ts, ds), Solve(CostMatrix(cfg, ts, ds)), RowsAreTracks(ts, ds))
  }

  // ----- the kept pairs are a largest and then cheapest matching

  datatype Pair = Pair(track: nat, det: nat)

  /** Pairs that pass the gate, no track and no detection used twice. */
  ghost predicate PairMatching(cfg: Config, ts: seq<Track>, ds: seq<Observation>, s: seq<Pair>) {
    && (forall k :: 0 <= k < |s| ==>
         s[k].track < |ts| && s[k].det < |ds| && Iou(Predicted(ts[s[k].track]), BoxOf(ds[s[k].det])) >= cfg.iouMin)
    && (forall a, b :: 0 <= a < b < |s| ==> s[a].track != s[b].track && s[a].det != s[b].det)
  }

  /** Total of 1 - IoU over the pairs. */
  ghost function Dissimilarity(ts: seq<Track>, ds: seq<Observation>, s: seq<Pair>): real
    requires forall k :: 0 <= k < |s| ==> s[k].track < |ts| && s[k].det < |ds|
  {
    if s == [] then 0.0
    else
      var last := s[|s| - 1];
      Dissimilarity(ts, ds, s[..|s| - 1]) + 1.0 - Iou(Predicted(ts[last.track]), BoxOf(ds[last.det]))
  }

  lemma DissimilaritySnoc(ts: seq<Track>, ds: seq<Observation>, s: seq<Pair>, p: Pair)
    requires forall k :: 0 <= k < |s| ==> s[k].track < |ts| && s[k].det < |ds|
    requires p.track < |ts| && p.det < |ds|
    ensures Dissimilarity(ts, ds, s + [p]) ==
      Dissimilarity(ts, ds, s) + 1.0 - Iou(Predicted(ts[p.track]), BoxOf(ds[p.det]))
  {
    hide Iou, Predicted, BoxOf;
    assert (s + [p])[..|s|] == s;
  }

  ghost function ToCell(rowsAreTracks: bool, p: Pair): Cell {
    if rowsAreTracks then Cell(p.track, p.det) else Cell(p.det, p.track)
  }

  ghost function ToCells(rowsAreTracks: bool, s: seq<Pair>): seq<Cell> {
    seq(|s|, k requires 0 <= k < |s| => ToCell(rowsAreTracks, s[k]))
  }

  ghost function ToPairs(rowsAreTracks: bool, s: seq<Cell>): seq<Pair> {
    seq(|s|, k requires 0 <= k < |s| => if rowsAreTracks then Pair(s[k].row, s[k].col) else Pair(s[k].col, s[k].row))
  }

  lemma CellMeaning(cfg: Config, ts: seq<Track>, ds: seq<Observation>, p: Pair)
    requires p.track < |ts| && p.det < |ds|
    ensures
      var pr, c := CostMatrix(cfg, ts, ds), ToCell(RowsAreTracks(ts, ds), p);
      && c.row < pr.n && c.col < pr.m
      && (At(pr, c.row + 1, c.col + 1) < BIG <==> Iou(Predicted(ts[p.track]), BoxOf(ds[p.det])) >= cfg.iouMin)
      && (At(pr, c.row + 1, c.col + 1) < BIG ==>
           At(pr, c.row + 1, c.col + 1) == 1.0 - Iou(Predicted(ts[p.track]), BoxOf(ds[p.det])))
  {
    hide CostMatrix, PairCost, At, Iou, Predicted;
    var c := ToCell(RowsAreTracks(ts, ds), p);
    CostMatrixAt(cfg, ts, ds, c.row, c.col);
    PairCostRange(cfg, ts[p.track], ds[p.det]);
  }

  /** Pair matchings are cell matchings. */
  lemma CellsMatch(cfg: Config, ts: seq<Track>, ds: seq<Observation>, s: seq<Pair>)
    requires PairMatching(cfg, ts, ds, s)
    ensures IsMatching(CostMatrix(cfg, ts, ds), ToCells(RowsAreTracks(ts, ds), s))
  {
    hide CostMatrix, At, Iou, Predicted, RowsAreTracks;
    var cells := ToCells(RowsAreTracks(ts, ds), s);
    forall k | 0 <= k < |s|
      ensures cells[k].row < CostMatrix(cfg, ts, ds).n && cells[k].col < CostMatrix(cfg, ts, ds).m
      ensures At(CostMatrix(cfg, ts, ds), cells[k].row + 1, cells[k].col + 1) < BIG
    {
      CellMeaning(cfg, ts, ds, s[k]);
    }
  }

  /** A matching of pairs costs what the matching of its cells costs. */
  lemma {:induction false} CellsCost(cfg: Config, ts: seq<Track>, ds: seq<Observation>, s: seq<Pair>)
    requires PairMatching(cfg, ts, ds, s)
    requires IsMatching(CostMatrix(cfg, ts, ds), ToCells(RowsAreTracks(ts, ds), s))
    ensures MatchingCost(CostMatrix(cfg, ts, ds), ToCells(RowsAreTracks(ts, ds), s)) == Dissimilarity(ts, ds, s)
  {
    hide CostMatrix, At, Iou, Predicted, RowsAreTracks;
    if s != [] {
      var front := s[..|s| - 1];
      CellsMatch(cfg, ts, ds, front);
      CellsCost(cfg, ts, ds, front);
      var cells := ToCells(RowsAreTracks(ts, ds), s);
      assert cells[..|s| - 1] == ToCells(RowsAreTracks(ts, ds), front);
      CellMeaning(cfg, ts, ds, s[|s| - 1]);
    }
  }

  /** The pairs that survive the gate, in the order of the smaller side. */
  ghost function KeptPairs(cfg: Config, ts: seq<Track>, ds: seq<Observation>): seq<Pair> {
    SolveOptimal(CostMatrix(cfg, ts, ds));
    ToPairs(RowsAreTracks(ts, ds),
            Kept(CostMatrix(cfg, ts, ds), Solve(CostMatrix(cfg, ts, ds)), CostMatrix(cfg, ts, ds).n))
  }

  lemma AssocFromKept(pr: Problem, a: seq<int>, rowsAreTracks: bool, p: Pair)
    requires pr.Valid() && IsAssignment(pr, a)
    requires if rowsAreTracks then p.track < pr.n && p.det < pr.m else p.det < pr.n && p.track < pr.m
    ensures AssocFrom(pr, a, rowsAreTracks)[p.det] == p.track <==> ToCell(rowsAreTracks, p) in Kept(pr, a, pr.n)
  {
    hide At;
    var c := ToCell(rowsAreTracks, p);
    var kept := Kept(pr, a, pr.n);
    if a[c.row] == c.col && At(pr, c.row + 1, c.col + 1) < BIG {
      KeptHas(pr, a, pr.n, c.row);
      if rowsAreTracks {
        var t := RowOf(pr, a, p.det, pr.n);
        assert a[t] == a[c.row];
      }
    }
  }

  lemma PairMatchingOfCells(cfg: Config, ts: seq<Track>, ds: seq<Observation>, cells: seq<Cell>)
    requires IsMatching(CostMatrix(cfg, ts, ds), cells)
    ensures
      var s := ToPairs(RowsAreTracks(ts, ds), cells);
      PairMatching(cfg, ts, ds, s) && ToCells(RowsAreTracks(ts, ds), s) == cells
  {
    hide At, Iou, Predicted;
    var s := ToPairs(RowsAreTracks(ts, ds), cells);
    forall k | 0 <= k < |s|
      ensures s[k].track < |ts| && s[k].det < |ds|
      ensures Iou(Predicted(ts[s[k].track]), BoxOf(ds[s[k].det])) >= cfg.iouMin
    {
      assert ToCell(RowsAreTracks(ts, ds), s[k]) == cells[k];
      CellMeaning(cfg, ts, ds, s[k]);
    }
    assert ToCells(RowsAreTracks(ts, ds), s) == cells;
  }

  lemma KeptPairsBest(cfg: Config, ts: seq<Track>, ds: seq<Observation>, a: seq<int>, s: seq<Pair>)
    requires CostMatrix(cfg, ts, ds).n as real < BIG
    requires Optimal(CostMatrix(cfg, ts, ds), a)
    requires PairMatching(cfg, ts, ds, s)
    ensures
      var kept := ToPairs(RowsAreTracks(ts, ds), Kept(CostMatrix(cfg, ts, ds), a, CostMatrix(cfg, ts, ds).n));
      && PairMatching(cfg, ts, ds, kept)
      && |s| <= |kept|
      && (|s| == |kept| ==> Dissimilarity(ts, ds, kept) <= Dissimilarity(ts, ds, s))
  {
    hide CostMatrix, Kept, At, Iou, Predicted, PairMatching, IsMatching, Gated, RowsAreTracks, Dissimilarity,
      MatchingCost;
    var pr, r := CostMatrix(cfg, ts, ds), RowsAreTracks(ts, ds);
    CostMatrixGated(cfg, ts, ds);
    KeptIsMatching(pr, a);
    PairMatchingOfCells(cfg, ts, ds, Kept(pr, a, pr.n));
    CellsCost(cfg, ts, ds, ToPairs(r, Kept(pr, a, pr.n)));
    CellsMatch(cfg, ts, ds, s);
    CellsCost(cfg, ts, ds, s);
    KeptBest(pr, a, ToCells(r, s));
  }

  /** No matching keeps more pairs than the association does, and none that keeps as many is
      closer in total. */
  lemma LocalAssocBest(cfg: Config, ts: seq<Track>, ds: seq<Observation>, s: seq<Pair>)
    requires |ts| as real < BIG || |ds| as real < BIG
    requires PairMatching(cfg, ts, ds, s)
    ensures PairMatching(cfg, ts, ds, KeptPairs(cfg, ts, ds))
    ensures |s| <= |KeptPairs(cfg, ts, ds)|
    ensures |s| == |KeptPairs(cfg, ts, ds)| ==>
              Dissimilarity(ts, ds, KeptPairs(cfg, ts, ds)) <= Dissimilarity(ts, ds, s)
  {
    hide CostMatrix, Solve, Kept, ToPairs, Iou, Predicted, PairMatching, Optimal, Dissimilarity;
    SolveOptimal(CostMatrix(cfg, ts, ds));
    KeptPairsBest(cfg, ts, ds, Solve(CostMatrix(cfg, ts, ds)), s);
  }

  lemma ToPairsHas(r: bool, cells: seq<Cell>, p: Pair)
    ensures p in ToPairs(r, cells) <==> ToCell(r, p) in cells
  {
    if ToCell(r, p) in cells {
      var k :| 0 <= k < |cells| && cells[k] == ToCell(r, p);
      assert ToPairs(r, cells)[k] == p;
    }
  }

  /** The association table lists exactly the kept pairs. */
  lemma LocalAssocIsKept(cfg: Config, ts: seq<Track>, ds: seq<Observation>, p: Pair)
    requires p.track < |ts| && p.det < |ds|
    ensures LocalAssoc(cfg, ts, ds)[p.det] == p.track <==> p in KeptPairs(cfg, ts, ds)
  {
    hide Solve, Kept, AssocFrom, Optimal, ToPairs, ToCell;
    var pr, r := CostMatrix(cfg, ts, ds), RowsAreTracks(ts, ds);
    hide CostMatrix;
    SolveOptimal(pr);
    AssocFromKept(pr, Solve(pr), r, p);
    ToPairsHas(r, Kept(pr, Solve(pr), pr.n), p);
  }
}
