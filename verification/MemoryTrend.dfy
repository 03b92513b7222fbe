/** The memory health monitor of de_databus/de_module_health.cpp: a rolling window of readings and the
    slope of the line fitted to it. Doubles are modelled as reals. */
module MemoryTrend {

  const WORD := 0x1_0000_0000_0000_0000
  const USEC_PER_HOUR := 3600000000.0

  type Counter = x: int | 0 <= x < WORD

  datatype Reading = Reading(usec: Counter, rssMb: real)

  datatype Point = Point(x: real, y: real)

  /** Hours since the first reading; the difference is taken modulo 2^64. */
  function PointOf(r: Reading, first: Reading): Point {
    Point(((r.usec - first.usec) % WORD) as real / USEC_PER_HOUR, r.rssMb)
  }

  function Points(readings: seq<Reading>): (ps: seq<Point>)
    ensures |ps| == |readings|
  {
    seq(|readings|, i requires 0 <= i < |readings| => PointOf(readings[i], readings[0]))
  }

  // ----- sums

  function Square(d: real): real {
    d * d
  }

  function Times(a: real, b: real): real {
    a * b
  }

  /** The line y = a + b x. */
  function LineAt(a: real, b: real, x: real): real {
    a + b * x
  }

  function SumX(ps: seq<Point>): real {
    if ps == [] then 0.0 else SumX(ps[..|ps| - 1]) + ps[|ps| - 1].x
  }

  function SumY(ps: seq<Point>): real {
    if ps == [] then 0.0 else SumY(ps[..|ps| - 1]) + ps[|ps| - 1].y
  }

  function SumXY(ps: seq<Point>): real {
    if ps == [] then 0.0 else SumXY(ps[..|ps| - 1]) + Times(ps[|ps| - 1].x, ps[|ps| - 1].y)
  }

  function SumXX(ps: seq<Point>): real {
    if ps == [] then 0.0 else SumXX(ps[..|ps| - 1]) + Square(ps[|ps| - 1].x)
  }

  /** n times a sum of products, less the product of the sums. */
  function Centred(n: real, sx: real, sy: real, products: real): real {
    n * products - sx * sy
  }

  function Denominator(ps: seq<Point>): real {
    Centred(|ps| as real, SumX(ps), SumX(ps), SumXX(ps))
  }

  function Numerator(ps: seq<Point>): real {
    Centred(|ps| as real, SumX(ps), SumY(ps), SumXY(ps))
  }

  /** `calculateSlope`. */
  function Slope(ps: seq<Point>): real {
    if |ps| < 2 || Denominator(ps) == 0.0 then 0.0 else Numerator(ps) / Denominator(ps)
  }

  // ----- the denominator

  /** The squared distances of all x from one of them. */
  function Spread(ps: seq<Point>, x: real): real {
    if ps == [] then 0.0 else Spread(ps[..|ps| - 1], x) + Square(ps[|ps| - 1].x - x)
  }

  lemma SquareIsPositive(d: real)
    ensures Square(d) >= 0.0 && (Square(d) == 0.0 <==> d == 0.0)
  {
    if d > 0.0 {
      PositiveProduct(d, d, Square(d));
    } else if d < 0.0 {
      PositiveProduct(-d, -d, Square(d));
    }
  }

  lemma PositiveProduct(a: real, b: real, product: real)
    requires a > 0.0 && b > 0.0 && product == a * b
    ensures product > 0.0
  {
  }

  predicate SameTime(ps: seq<Point>, x: real) {
    forall i :: 0 <= i < |ps| ==> ps[i].x == x
  }

  lemma {:induction false} SpreadNonNegative(ps: seq<Point>, x: real)
    ensures Spread(ps, x) >= 0.0 && (Spread(ps, x) == 0.0 <==> SameTime(ps, x))
  {
    if ps != [] {
      SpreadNonNegative(ps[..|ps| - 1], x);
      SquareIsPositive(ps[|ps| - 1].x - x);
      assert SameTime(ps, x) <==> SameTime(ps[..|ps| - 1], x) && ps[|ps| - 1].x == x;
    }
  }

  function Expanded(n: real, sx: real, sxx: real, x: real): real {
    sxx - 2.0 * x * sx + n * (x * x)
  }

  lemma {:induction false} SpreadExpands(ps: seq<Point>, x: real)
    ensures Spread(ps, x) == Expanded(|ps| as real, SumX(ps), SumXX(ps), x)
  {
    if ps != [] {
      hide Square, Times, Expanded;
      var front, q := ps[..|ps| - 1], ps[|ps| - 1].x;
      SpreadExpands(front, x);
      ExpandedStep(|front| as real, SumX(front), SumXX(front), q, x);
    }
  }

  lemma ExpandedStep(n: real, sx: real, sxx: real, q: real, x: real)
    ensures Expanded(n, sx, sxx, x) + Square(q - x) == Expanded(n + 1.0, sx + q, sxx + Square(q), x)
  {
  }

  /** One more point adds its squared distances from all the others. */
  lemma DenominatorGrows(ps: seq<Point>)
    requires ps != []
    ensures var front := ps[..|ps| - 1]; Denominator(ps) == Denominator(front) + Spread(front, ps[|ps| - 1].x)
  {
    var front, q := ps[..|ps| - 1], ps[|ps| - 1].x;
    SpreadExpands(front, q);
    hide Square, Times, Expanded, SumX, SumXX, Spread, Centred;
    DenominatorStep(|front| as real, SumX(front), SumXX(front), q);
    SumXGrows(ps);
  }

  lemma SumXGrows(ps: seq<Point>)
    requires ps != []
    ensures SumX(ps) == SumX(ps[..|ps| - 1]) + ps[|ps| - 1].x &&
      SumXX(ps) == SumXX(ps[..|ps| - 1]) + Square(ps[|ps| - 1].x)
  {
  }

  lemma DenominatorStep(n: real, sx: real, sxx: real, q: real)
    ensures Centred(n + 1.0, sx + q, sx + q, sxx + Square(q)) == Centred(n, sx, sx, sxx) + Expanded(n, sx, sxx, q)
  {
  }

  /** The denominator is never negative, and zero exactly when all readings are of one instant. */
  lemma {:induction false} DenominatorZeroIff(ps: seq<Point>)
    ensures Denominator(ps) >= 0.0
    ensures ps != [] ==> (Denominator(ps) == 0.0 <==> SameTime(ps, ps[0].x))
  {
    if ps != [] {
      hide Denominator, Spread;
      var front, q := ps[..|ps| - 1], ps[|ps| - 1].x;
      DenominatorZeroIff(front);
      DenominatorGrows(ps);
      SpreadNonNegative(front, q);
      if front == [] {
        assert Denominator([]) == 0.0 by { EmptySums(); }
        assert SameTime(ps, ps[0].x);
      } else {
        assert front[0] == ps[0];
        assert SameTime(ps, ps[0].x) ==> SameTime(front, q) && SameTime(front, ps[0].x) by {
          assert forall i :: 0 <= i < |front| ==> front[i] == ps[i];
          assert ps[|ps| - 1].x == q;
        }
        assert SameTime(front, q) ==> front[0].x == q;
        assert SameTime(front, q) ==> SameTime(ps, ps[0].x);
      }
    }
  }

  lemma EmptySums()
    ensures Denominator([]) == 0.0 && Numerator([]) == 0.0
  {
  }

  // ----- least squares

  /** How far a point lies above a line. */
  function Miss(p: Point, a: real, b: real): real {
    p.y - LineAt(a, b, p.x)
  }

  /** The squared error of the line y = a + b x. */
  function Error(ps: seq<Point>, a: real, b: real): real {
    if ps == [] then 0.0 else Error(ps[..|ps| - 1], a, b) + Square(Miss(ps[|ps| - 1], a, b))
  }

  /** The squared values of a line at the points. */
  function LineSquares(ps: seq<Point>, a: real, b: real): real {
    if ps == [] then 0.0 else LineSquares(ps[..|ps| - 1], a, b) + Square(LineAt(a, b, ps[|ps| - 1].x))
  }

  lemma {:induction false} LineSquaresNonNegative(ps: seq<Point>, a: real, b: real)
    ensures LineSquares(ps, a, b) >= 0.0
  {
    if ps != [] {
      LineSquaresNonNegative(ps[..|ps| - 1], a, b);
      SquareIsPositive(LineAt(a, b, ps[|ps| - 1].x));
    }
  }

  /** How far a line is from balance: the two normal equations. */
  function Residual(ps: seq<Point>, a: real, b: real): real {
    |ps| as real * a + b * SumX(ps) - SumY(ps)
  }

  function Moment(ps: seq<Point>, a: real, b: real): real {
    a * SumX(ps) + b * SumXX(ps) - SumXY(ps)
  }

  function Pull(residual: real, moment: real, da: real, db: real): real {
    2.0 * (da * residual + db * moment)
  }

  function Cross(d: real, r: real): real {
    2.0 * (d * r)
  }

  /** Moving a line by (da, db) changes its error by the squares of the move, up to the residuals. */
  lemma {:induction false} ErrorOfMoved(ps: seq<Point>, a: real, b: real, da: real, db: real)
    ensures Error(ps, a + da, b + db) ==
            Error(ps, a, b) + LineSquares(ps, da, db) + Pull(Residual(ps, a, b), Moment(ps, a, b), da, db)
  {
    if ps == [] {
      assert Residual(ps, a, b) == 0.0 && Moment(ps, a, b) == 0.0;
    } else {
      hide Error, LineSquares, Residual, Moment, Square, Pull, Cross, Miss, Times, LineAt;
      var front, q := ps[..|ps| - 1], ps[|ps| - 1];
      ErrorOfMoved(front, a, b, da, db);
      ErrorGrows(ps, a, b);
      ErrorGrows(ps, a + da, b + db);
      ResidualGrows(ps, a, b);
      MovedSquare(q, a, b, da, db);
      MovedStep(Residual(front, a, b), Moment(front, a, b), -Miss(q, a, b), da, db, q.x);
      LineGrows(ps, da, db);
    }
  }

  lemma ErrorGrows(ps: seq<Point>, a: real, b: real)
    requires ps != []
    ensures Error(ps, a, b) == Error(ps[..|ps| - 1], a, b) + Square(Miss(ps[|ps| - 1], a, b))
  {
  }

  lemma LineGrows(ps: seq<Point>, a: real, b: real)
    requires ps != []
    ensures LineSquares(ps, a, b) == LineSquares(ps[..|ps| - 1], a, b) + Square(LineAt(a, b, ps[|ps| - 1].x))
  {
  }

  lemma MovedStep(residual: real, moment: real, r: real, da: real, db: real, x: real)
    ensures Pull(residual, moment, da, db) + Cross(LineAt(da, db, x), r) ==
      Pull(residual + r, moment + Times(x, r), da, db)
  {
  }

  lemma ResidualGrows(ps: seq<Point>, a: real, b: real)
    requires ps != []
    ensures var front, q := ps[..|ps| - 1], ps[|ps| - 1];
            var r := -Miss(q, a, b);
            Residual(ps, a, b) == Residual(front, a, b) + r && Moment(ps, a, b) == Moment(front, a, b) + Times(q.x, r)
  {
    var front, q := ps[..|ps| - 1], ps[|ps| - 1];
    ResidualStep(|front| as real, SumX(front), SumY(front), SumXY(front), SumXX(front), q.x, q.y, a, b);
  }

  lemma ResidualStep(n: real, sx: real, sy: real, sxy: real, sxx: real, x: real, y: real, a: real, b: real)
    ensures (n + 1.0) * a + b * (sx + x) - (sy + y) == (n * a + b * sx - sy) + (a + b * x - y)
    ensures a * (sx + x) + b * (sxx + x * x) - (sxy + x * y) == (a * sx + b * sxx - sxy) + x * (a + b * x - y)
  {
  }

  lemma MovedSquare(p: Point, a: real, b: real, da: real, db: real)
    ensures Square(Miss(p, a + da, b + db)) ==
      Square(Miss(p, a, b)) + Square(LineAt(da, db, p.x)) + Cross(LineAt(da, db, p.x), -Miss(p, a, b))
  {
    var r, d := -Miss(p, a, b), da + db * p.x;
    assert Miss(p, a + da, b + db) == -(r + d);
    assert (-(r + d)) * (-(r + d)) == r * r + d * d + 2.0 * (d * r);
  }

  /** The intercept that goes with the slope. */
  function Intercept(ps: seq<Point>): real
    requires ps != []
  {
    (SumY(ps) - Slope(ps) * SumX(ps)) / |ps| as real
  }

  lemma Balanced(ps: seq<Point>)
    requires |ps| >= 2 && Denominator(ps) != 0.0
    ensures Residual(ps, Intercept(ps), Slope(ps)) == 0.0 && Moment(ps, Intercept(ps), Slope(ps)) == 0.0
  {
    hide SumX, SumY, SumXY, SumXX;
    var n, sx, sy, sxy, sxx := |ps| as real, SumX(ps), SumY(ps), SumXY(ps), SumXX(ps);
    var b, a := Slope(ps), Intercept(ps);
    NormalEquations(n, sx, sy, sxy, sxx, a, b);
  }

  lemma NormalEquations(n: real, sx: real, sy: real, sxy: real, sxx: real, a: real, b: real)
    requires n > 0.0 && n * sxx - sx * sx != 0.0
    requires b == (n * sxy - sx * sy) / (n * sxx - sx * sx) && a == (sy - b * sx) / n
    ensures n * a + b * sx - sy == 0.0 && a * sx + b * sxx - sxy == 0.0
  {
    var d := n * sxx - sx * sx;
    assert b * d == n * sxy - sx * sy;
    assert n * a == sy - b * sx;
    var m := a * sx + b * sxx - sxy;
    assert n * m == 0.0 by {
      assert n * m == (n * a) * sx + b * (n * sxx) - n * sxy;
      assert (n * a) * sx == sy * sx - b * (sx * sx);
      assert b * d == b * (n * sxx) - b * (sx * sx);
    }
    assert m == n * m / n;
  }

  /** The slope and its intercept are the least-squares line: no line has a smaller squared error, and
      when the readings are of more than one instant, every other line has a larger one. */
  lemma LeastSquares(ps: seq<Point>, a: real, b: real)
    requires |ps| >= 2 && !SameTime(ps, ps[0].x)
    ensures Error(ps, a, b) >= Error(ps, Intercept(ps), Slope(ps))
    ensures Error(ps, a, b) == Error(ps, Intercept(ps), Slope(ps)) ==> a == Intercept(ps) && b == Slope(ps)
  {
    hide Denominator, Slope, Intercept, Error, LineSquares, Residual, Moment;
    DenominatorZeroIff(ps);
    Balanced(ps);
    var c, s := Intercept(ps), Slope(ps);
    ErrorOfMoved(ps, c, s, a - c, b - s);
    assert (a - c) * 0.0 == 0.0 && (b - s) * 0.0 == 0.0;
    assert c + (a - c) == a && s + (b - s) == b;
    LineSquaresNonNegative(ps, a - c, b - s);
    var i :| 0 <= i < |ps| && ps[i].x != ps[0].x;
    if LineSquares(ps, a - c, b - s) == 0.0 {
      LineVanishes(ps, a - c, b - s, 0);
      LineVanishes(ps, a - c, b - s, i);
      assert (b - s) * (ps[i].x - ps[0].x) == 0.0;
    }
  }

  lemma {:induction false} LineVanishes(ps: seq<Point>, a: real, b: real, i: nat)
    requires i < |ps| && LineSquares(ps, a, b) == 0.0
    ensures a + b * ps[i].x == 0.0
  {
    LineSquaresNonNegative(ps[..|ps| - 1], a, b);
    SquareIsPositive(LineAt(a, b, ps[|ps| - 1].x));
    if i < |ps| - 1 { LineVanishes(ps[..|ps| - 1], a, b, i); }
  }

  // ----- growth

  predicate Growing(ps: seq<Point>) {
    forall i, j :: 0 <= i < j < |ps| ==> ps[i].x <= ps[j].x && ps[i].y <= ps[j].y
  }

  /** The products of the distances of all points from one of them. */
  function Products(ps: seq<Point>, q: Point): real {
    if ps == [] then 0.0 else Products(ps[..|ps| - 1], q) + Times(q.x - ps[|ps| - 1].x, q.y - ps[|ps| - 1].y)
  }

  lemma {:induction false} ProductsNonNegative(ps: seq<Point>, q: Point)
    requires forall i :: 0 <= i < |ps| ==> ps[i].x <= q.x && ps[i].y <= q.y
    ensures Products(ps, q) >= 0.0
  {
    if ps != [] {
      ProductsNonNegative(ps[..|ps| - 1], q);
      NonNegativeProduct(q.x - ps[|ps| - 1].x, q.y - ps[|ps| - 1].y);
    }
  }

  lemma NonNegativeProduct(a: real, b: real)
    requires a >= 0.0 && b >= 0.0
    ensures a * b >= 0.0
  {
  }

  function Multiplied(n: real, sx: real, sy: real, sxy: real, q: Point): real {
    sxy - q.x * sy - q.y * sx + n * (q.x * q.y)
  }

  lemma {:induction false} ProductsExpand(ps: seq<Point>, q: Point)
    ensures Products(ps, q) == Multiplied(|ps| as real, SumX(ps), SumY(ps), SumXY(ps), q)
  {
    if ps != [] {
      hide Times, Multiplied;
      var front, p := ps[..|ps| - 1], ps[|ps| - 1];
      ProductsExpand(front, q);
      ProductsStep(|front| as real, SumX(front), SumY(front), SumXY(front), q, p);
    }
  }

  lemma ProductsStep(n: real, sx: real, sy: real, sxy: real, q: Point, p: Point)
    ensures Multiplied(n, sx, sy, sxy, q) + Times(q.x - p.x, q.y - p.y) ==
            Multiplied(n + 1.0, sx + p.x, sy + p.y, sxy + Times(p.x, p.y), q)
  {
  }

  lemma NumeratorGrows(ps: seq<Point>)
    requires ps != []
    ensures var front := ps[..|ps| - 1]; Numerator(ps) == Numerator(front) + Products(front, ps[|ps| - 1])
  {
    var front, q := ps[..|ps| - 1], ps[|ps| - 1];
    ProductsExpand(front, q);
    SumXYGrows(ps);
    hide Times, Multiplied, SumX, SumY, SumXY, Products, Centred;
    NumeratorStep(|front| as real, SumX(front), SumY(front), SumXY(front), q);
  }

  lemma SumXYGrows(ps: seq<Point>)
    requires ps != []
    ensures var front, q := ps[..|ps| - 1], ps[|ps| - 1];
            SumX(ps) == SumX(front) + q.x && SumY(ps) == SumY(front) + q.y &&
              SumXY(ps) == SumXY(front) + Times(q.x, q.y)
  {
  }

  lemma NumeratorStep(n: real, sx: real, sy: real, sxy: real, q: Point)
    ensures Centred(n + 1.0, sx + q.x, sy + q.y, sxy + Times(q.x, q.y)) ==
      Centred(n, sx, sy, sxy) + Multiplied(n, sx, sy, sxy, q)
  {
  }

  /** Readings in time order whose memory never shrinks have no negative slope. */
  lemma {:induction false} GrowingSlope(ps: seq<Point>)
    requires Growing(ps)
    ensures Numerator(ps) >= 0.0 && Slope(ps) >= 0.0
  {
    if ps != [] {
      hide Numerator, Denominator, Products;
      var front := ps[..|ps| - 1];
      GrowingSlope(front);
      NumeratorGrows(ps);
      ProductsNonNegative(front, ps[|ps| - 1]);
      DenominatorZeroIff(ps);
      if Denominator(ps) != 0.0 { NonNegativeQuotient(Numerator(ps), Denominator(ps)); }
    } else {
      EmptySums();
    }
  }

  lemma NonNegativeQuotient(a: real, b: real)
    requires a >= 0.0 && b > 0.0
    ensures a / b >= 0.0
  {
  }

  // ----- the window

  datatype Trend = Stable | Up | Down
  datatype Status = Healthy | Warning | Critical

  /** The last n of the readings. */
  function Last(readings: seq<Reading>, n: nat): (r: seq<Reading>)
    ensures |r| == if |readings| <= n then |readings| else n
  {
    if |readings| <= n then readings else readings[|readings| - n..]
  }

  function TrendOf(slope: real): Trend {
    if slope > 1.0 then Up else if slope < -1.0 then Down else Stable
  }

  /** The window after a series of readings. */
  function Window(readings: seq<Reading>, n: nat): seq<Reading> {
    if readings == [] then [] else Last(Window(readings[..|readings| - 1], n) + [readings[|readings| - 1]], n)
  }

  /** The rolling window is the last n of all readings. */
  lemma {:induction false} WindowIsLast(readings: seq<Reading>, n: nat)
    ensures Window(readings, n) == Last(readings, n)
  {
    if readings != [] {
      var front, r := readings[..|readings| - 1], readings[|readings| - 1];
      WindowIsLast(front, n);
      assert front + [r] == readings;
    }
  }

  predicate InOrder(readings: seq<Reading>) {
    forall i, j :: 0 <= i < j < |readings| ==>
      readings[i].usec <= readings[j].usec && readings[i].rssMb <= readings[j].rssMb
  }

  /** A process whose memory never shrinks is never reported to trend down, whatever the window. */
  lemma NeverDown(readings: seq<Reading>, n: nat)
    requires InOrder(readings)
    ensures TrendOf(Slope(Points(Window(readings, n)))) != Down
  {
    hide Window, Last, Points, Slope, InOrder, Growing;
    WindowIsLast(readings, n);
    LastInOrder(readings, n);
    PointsGrow(Last(readings, n));
    GrowingSlope(Points(Last(readings, n)));
  }

  lemma LastInOrder(readings: seq<Reading>, n: nat)
    requires InOrder(readings)
    ensures InOrder(Last(readings, n))
  {
    var window := Last(readings, n);
    var offset := |readings| - |window|;
    assert window == readings[offset..];
    hide Last;
    forall i, j | 0 <= i < j < |window|
      ensures window[i].usec <= window[j].usec && window[i].rssMb <= window[j].rssMb
    {
      InOrderAt(readings, offset + i, offset + j);
    }
  }

  lemma InOrderAt(readings: seq<Reading>, i: nat, j: nat)
    requires InOrder(readings) && i < j < |readings|
    ensures readings[i].usec <= readings[j].usec && readings[i].rssMb <= readings[j].rssMb
  {
  }

  lemma PointsGrow(window: seq<Reading>)
    requires InOrder(window)
    ensures Growing(Points(window))
  {
    var ps := Points(window);
    forall i, j | 0 <= i < j < |ps|
      ensures ps[i].x <= ps[j].x && ps[i].y <= ps[j].y
    {
      if i > 0 { assert window[0].usec <= window[i].usec; }
      LaterPoint(window[i], window[j], window[0]);
    }
  }

  lemma LaterPoint(a: Reading, b: Reading, first: Reading)
    requires first.usec <= a.usec <= b.usec
    ensures PointOf(a, first).x <= PointOf(b, first).x
  {
    var ta, tb: int := a.usec - first.usec, b.usec - first.usec;
    assert ta % WORD == ta && tb % WORD == tb;
    LaterHours(ta as real, tb as real);
  }

  lemma LaterHours(a: real, b: real)
    requires a <= b
    ensures a / USEC_PER_HOUR <= b / USEC_PER_HOUR
  {
  }

  /** Memory that grows by g megabytes in every 3600 seconds, by readings of microseconds. */
  predicate Steady(window: seq<Reading>, g: real) {
    forall i :: 0 <= i < |window| ==>
      && window[i].usec >= window[0].usec
      && 3600.0 * 1000000.0 * (window[i].rssMb - window[0].rssMb) == g * (window[i].usec - window[0].usec) as real
  }

  /** Steady growth over more than one instant is reported as it is, in megabytes an hour. */
  lemma SteadyGrowth(window: seq<Reading>, g: real)
    requires Steady(window, g) && exists i :: 0 <= i < |window| && window[i].usec > window[0].usec
    ensures Slope(Points(window)) == g
  {
    hide Slope, Error, Intercept;
    var ps, a := Points(window), window[0].rssMb;
    forall i | 0 <= i < |ps|
      ensures ps[i].y == LineAt(a, g, ps[i].x) && (window[i].usec > window[0].usec ==> ps[i].x > ps[0].x)
    {
      SteadyPoint(window[i], window[0], g);
      SteadyPoint(window[0], window[0], g);
    }
    OnLine(ps, a, g);
    ErrorNonNegative(ps, Intercept(ps), Slope(ps));
    LeastSquares(ps, a, g);
  }

  lemma SteadyPoint(r: Reading, first: Reading, g: real)
    requires r.usec >= first.usec
    requires 3600.0 * 1000000.0 * (r.rssMb - first.rssMb) == g * (r.usec - first.usec) as real
    ensures PointOf(r, first).y == LineAt(first.rssMb, g, PointOf(r, first).x)
    ensures if r.usec > first.usec then PointOf(r, first).x > 0.0 else PointOf(r, first).x == 0.0
  {
    var t: int := r.usec - first.usec;
    assert t % WORD == t;
    HoursOf(t as real, g);
  }

  /** A rate by the microsecond and by the hour. */
  lemma HoursOf(t: real, g: real)
    ensures var x := t / USEC_PER_HOUR; t == USEC_PER_HOUR * x && g * t == USEC_PER_HOUR * (g * x)
  {
    Regroup(g, t / USEC_PER_HOUR);
  }

  lemma Regroup(g: real, x: real)
    ensures g * (USEC_PER_HOUR * x) == USEC_PER_HOUR * (g * x)
  {
  }

  lemma {:induction false} ErrorNonNegative(ps: seq<Point>, a: real, b: real)
    ensures Error(ps, a, b) >= 0.0
  {
    if ps != [] {
      ErrorNonNegative(ps[..|ps| - 1], a, b);
      SquareIsPositive(Miss(ps[|ps| - 1], a, b));
    }
  }

  /** A line through every point has no error. */
  lemma {:induction false} OnLine(ps: seq<Point>, a: real, b: real)
    requires forall i :: 0 <= i < |ps| ==> ps[i].y == LineAt(a, b, ps[i].x)
    ensures Error(ps, a, b) == 0.0
  {
    if ps != [] {
      OnLine(ps[..|ps| - 1], a, b);
      assert Miss(ps[|ps| - 1], a, b) == 0.0;
    }
  }

  datatype Sample = Sample(
    valid: bool, rssMb: real, peakRssMb: real, vmswapMb: real, threads: int, slopeMbH: real,
    trend: Trend, status: Status, uptimeSec: nat)

  /** What could be read of the process: its resident and swapped memory and its threads, or nothing. */
  datatype Memory = NotReadable | Readable(rssMb: real, vmswapMb: real, threads: int)

  class HealthMonitor {
    var history: seq<Reading>
    var historySamples: nat
    var maxRssMb: real
    var maxGrowthMbPerHour: real
    var startTimeUsec: Counter

    constructor ()
      ensures history == [] && historySamples == 40 && maxRssMb == 500.0 && maxGrowthMbPerHour == 20.0 &&
        startTimeUsec == 0
    {
      history, historySamples, maxRssMb, maxGrowthMbPerHour, startTimeUsec := [], 40, 500.0, 20.0, 0;
    }

    method Configure(rss: real, growth: real, samples: nat)
      modifies this
      ensures maxRssMb == rss && maxGrowthMbPerHour == growth && historySamples == samples
      ensures history == old(history) && startTimeUsec == old(startTimeUsec)
    {
      maxRssMb, maxGrowthMbPerHour, historySamples := rss, growth, samples;
    }

    method CalculateSlope() returns (slope: real)
      ensures slope == Slope(Points(history))
    {
      hide SumX, SumY, SumXY, SumXX;
      var n := |history|;
      if n < 2 { return 0.0; }
      ghost var ps := Points(history);
      var sumX, sumY, sumXY, sumXX := 0.0, 0.0, 0.0, 0.0;
      NoSums();
      assert ps[..0] == [];
      for i := 0 to n
        invariant sumX == SumX(ps[..i]) && sumY == SumY(ps[..i]) && sumXY == SumXY(ps[..i]) && sumXX == SumXX(ps[..i])
      {
        var p := PointOf(history[i], history[0]);
        SumsGrow(ps, i);
        sumX, sumY, sumXY, sumXX := sumX + p.x, sumY + p.y, sumXY + p.x * p.y, sumXX + p.x * p.x;
      }
      assert ps[..n] == ps;
      var denominator := n as real * sumXX - sumX * sumX;
      if denominator == 0.0 { return 0.0; }
      slope := (n as real * sumXY - sumX * sumY) / denominator;
    }

    /** The largest of 0 and the window's memory. */
    method Peak() returns (peak: real)
      ensures IsPeak(peak, history)
    {
      peak := 0.0;
      for i := 0 to |history|
        invariant peak >= 0.0 && forall j :: 0 <= j < i ==> history[j].rssMb <= peak
        invariant peak == 0.0 || exists j :: 0 <= j < i && history[j].rssMb == peak
      {
        if history[i].rssMb > peak { peak := history[i].rssMb; }
      }
    }

    method Push(r: Reading)
      modifies this`history
      ensures history == Last(old(history) + [r], historySamples)
    {
      history := history + [r];
      ghost var all := history;
      while |history| > historySamples
        invariant |history| <= |all| && history == all[|all| - |history|..]
        invariant |history| >= historySamples || history == all
        decreases |history|
      {
        history := history[1..];
      }
    }

    /** `sample` at a monotonic time. */
    method TakeSample(now: Counter, read: Memory) returns (s: Sample)
      modifies this
      ensures startTimeUsec == if old(startTimeUsec) == 0 then now else old(startTimeUsec)
      ensures historySamples == old(historySamples) && maxRssMb == old(maxRssMb) &&
        maxGrowthMbPerHour == old(maxGrowthMbPerHour)
      ensures read.NotReadable? ==> !s.valid && history == old(history)
      ensures read.Readable? ==>
        && s.valid && s.rssMb == read.rssMb && s.vmswapMb == read.vmswapMb && s.threads == read.threads
        && history == Last(old(history) + [Reading(now, read.rssMb)], historySamples)
        && s.slopeMbH == Slope(Points(history))
        && (s.trend == Up <==> s.slopeMbH > 1.0) && (s.trend == Down <==> s.slopeMbH < -1.0)
        && IsPeak(s.peakRssMb, history)
        && (s.status == Critical <==> read.rssMb > maxRssMb)
        && (s.status == Warning <==>
          read.rssMb <= maxRssMb && |history| >= historySamples && s.slopeMbH > maxGrowthMbPerHour)
        && s.uptimeSec == (now - startTimeUsec) % WORD / 1000000
    {
      hide Slope, Points, Last, IsPeak;
      s := Sample(false, 0.0, 0.0, 0.0, 0, 0.0, Stable, Healthy, 0);
      if startTimeUsec == 0 { startTimeUsec := now; }
      if read.NotReadable? { return; }
      Push(Reading(now, read.rssMb));
      var slope := CalculateSlope();
      var peak := Peak();
      var status := if read.rssMb > maxRssMb then Critical
                    else if |history| >= historySamples && slope > maxGrowthMbPerHour then Warning
                    else Healthy;
      s := Sample(true, read.rssMb, peak, read.vmswapMb, read.threads, slope, TrendOf(slope), status,
                  (now - startTimeUsec) % WORD / 1000000);
    }
  }

  predicate IsPeak(peak: real, window: seq<Reading>) {
    && peak >= 0.0
    && (forall i :: 0 <= i < |window| ==> window[i].rssMb <= peak)
    && (peak == 0.0 || exists i :: 0 <= i < |window| && window[i].rssMb == peak)
  }

  lemma NoSums()
    ensures SumX([]) == 0.0 && SumY([]) == 0.0 && SumXY([]) == 0.0 && SumXX([]) == 0.0
  {
  }

  lemma SumsGrow(ps: seq<Point>, i: nat)
    requires i < |ps|
    ensures SumX(ps[..i + 1]) == SumX(ps[..i]) + ps[i].x && SumY(ps[..i + 1]) == SumY(ps[..i]) + ps[i].y
    ensures SumXY(ps[..i + 1]) == SumXY(ps[..i]) + ps[i].x * ps[i].y &&
      SumXX(ps[..i + 1]) == SumXX(ps[..i]) + ps[i].x * ps[i].x
  {
    assert ps[..i + 1][..i] == ps[..i];
  }
}
