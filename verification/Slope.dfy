/** Loops over positions, and what two of them keep true of each other. */
module Loops {

  function Loop<A>(step: (A, nat) -> A, a: A, n: nat): A {
    if n == 0 then a else step(Loop(step, a, n - 1), n - 1)
  }

  lemma {:induction false} LoopsRelate<A(!new), B(!new)>(
      f: (A, nat) -> A, a: A, g: (B, nat) -> B, b: B, related: (A, B, nat) -> bool, n: nat)
    requires related(a, b, 0)
    requires forall x, y, k: nat :: related(x, y, k) ==> related(f(x, k), g(y, k), k + 1)
    ensures related(Loop(f, a, n), Loop(g, b, n), n)
  {
    if n > 0 {
      LoopsRelate(f, a, g, b, related, n - 1);
    }
  }

  lemma {:induction false} LoopKeeps<A(!new)>(f: (A, nat) -> A, a: A, holds: (A, nat) -> bool, n: nat)
    requires holds(a, 0)
    requires forall x, k: nat :: holds(x, k) ==> holds(f(x, k), k + 1)
    ensures holds(Loop(f, a, n), n)
  {
    if n > 0 {
      LoopKeeps(f, a, holds, n - 1);
    }
  }
}

/** The least-squares slope of scripts/bench-task-registry-sqlite-worker.ts, over the reals. */
module Slope {
  import opened Loops

  function At(values: seq<real>, k: nat): real {
    if k < |values| then values[k] else 0.0
  }

  function AddValue(values: seq<real>): (real, nat) -> real {
    (sum: real, k: nat) => sum + At(values, k)
  }

  function Total(values: seq<real>): real {
    Loop(AddValue(values), 0.0, |values|)
  }

  function Mean(values: seq<real>): real
    requires values != []
  {
    Total(values) / |values| as real
  }

  function XMean(n: nat): real {
    (n as real - 1.0) / 2.0
  }

  /** The sums of the deviations of x and y from their means, and of their products. */
  datatype Sums = Sums(x: real, y: real, xx: real, xy: real, yy: real)

  function Extend(s: Sums, dx: real, dy: real): Sums {
    Sums(s.x + dx, s.y + dy, s.xx + dx * dx, s.xy + dx * dy, s.yy + dy * dy)
  }

  const NO_SUMS: Sums := Sums(0.0, 0.0, 0.0, 0.0, 0.0)

  function AddPoint(values: seq<real>, xMean: real, yMean: real): (Sums, nat) -> Sums {
    (s: Sums, k: nat) => Extend(s, k as real - xMean, At(values, k) - yMean)
  }

  function Deviations(values: seq<real>, n: nat): Sums
    requires values != []
  {
    Loop(AddPoint(values, XMean(|values|), Mean(values)), NO_SUMS, n)
  }

  function Square(r: real): real {
    r * r
  }

  /** A line by its slope and its height at the mean position; every line has such a form. */
  function Residual(x: real, y: real, xMean: real, slope: real, height: real): real {
    y - (height + slope * (x - xMean))
  }

  function AddResidual(values: seq<real>, residual: (real, real) -> real): (real, nat) -> real {
    (sum: real, k: nat) => sum + Square(residual(k as real, At(values, k)))
  }

  function Line(xMean: real, slope: real, height: real): (real, real) -> real {
    (x, y) => Residual(x, y, xMean, slope, height)
  }

  /** The sum of the squared residuals of a line. */
  function Residuals(values: seq<real>, slope: real, height: real): real {
    Loop(AddResidual(values, Line(XMean(|values|), slope, height)), 0.0, |values|)
  }

  // The sums over x, in closed form.

  function SumX(n: real, m: real): real {
    n * (n - 1.0) / 2.0 - n * m
  }

  function SumXX(n: real, m: real): real {
    n * (n - 1.0) * (2.0 * n - 1.0) / 6.0 - m * n * (n - 1.0) + n * m * m
  }

  lemma NextX(k: real, m: real)
    ensures SumX(k, m) + (k - m) == SumX(k + 1.0, m)
    ensures SumXX(k, m) + (k - m) * (k - m) == SumXX(k + 1.0, m)
  {
  }

  lemma Cubic(n: real, m: real)
    requires n == 2.0 * m + 1.0
    ensures SumX(n, m) == 0.0 && SumXX(n, m) == n * (n * n - 1.0) / 12.0
  {
    var t := n * m;
    assert n * (n - 1.0) == 2.0 * t;
    assert n * (n - 1.0) * (2.0 * n - 1.0) == 2.0 * t * (4.0 * m + 1.0) == 8.0 * (t * m) + 2.0 * t;
    assert m * n * (n - 1.0) == 2.0 * (t * m);
    assert n * m * m == t * m;
    assert SumXX(n, m) == (t * m + t) / 3.0;
    assert n * n - 1.0 == 4.0 * (m * m + m);
    assert n * (m * m + m) == t * m + t;
  }

  lemma CubicIsPositive(n: real)
    requires n >= 2.0
    ensures n * (n * n - 1.0) / 12.0 > 0.0
  {
    assert n * n >= 4.0;
    assert n * (n * n - 1.0) >= 2.0 * 3.0;
  }

  predicate XInClosedForm(s: Sums, n: real, m: real) {
    s.x == SumX(n, m) && s.xx == SumXX(n, m)
  }

  lemma PointKeepsX(s: Sums, n: real, m: real, dy: real)
    requires XInClosedForm(s, n, m)
    ensures XInClosedForm(Extend(s, n - m, dy), n + 1.0, m)
  {
    NextX(n, m);
  }

  lemma XSums(values: seq<real>, m: real, yMean: real, n: nat)
    ensures XInClosedForm(Loop(AddPoint(values, m, yMean), NO_SUMS, n), n as real, m)
  {
    var holds := (s: Sums, k: nat) => XInClosedForm(s, k as real, m);
    forall s, k: nat | holds(s, k) ensures holds(AddPoint(values, m, yMean)(s, k), k + 1) {
      PointKeepsX(s, k as real, m, At(values, k) - yMean);
      assert (k + 1) as real == k as real + 1.0;
    }
    LoopKeeps(AddPoint(values, m, yMean), NO_SUMS, holds, n);
  }

  /** The denominator is n(n^2 - 1)/12, so it is zero for no two or more values. */
  lemma DenominatorIsCubic(values: seq<real>)
    requires |values| >= 2
    ensures var n, s := |values| as real, Deviations(values, |values|);
      s.xx == n * (n * n - 1.0) / 12.0 && s.xx > 0.0 && s.x == 0.0
  {
    var m := XMean(|values|);
    XSums(values, m, Mean(values), |values|);
    Cubic(|values| as real, m);
    CubicIsPositive(|values| as real);
  }

  // The deviations of y cancel.

  predicate YCounted(s: Sums, sum: real, n: real, yMean: real) {
    s.y == sum - n * yMean
  }

  lemma PointCountsY(s: Sums, sum: real, n: real, yMean: real, dx: real, y: real)
    requires YCounted(s, sum, n, yMean)
    ensures YCounted(Extend(s, dx, y - yMean), sum + y, n + 1.0, yMean)
  {
    assert (n + 1.0) * yMean == n * yMean + yMean;
  }

  lemma YSums(values: seq<real>, m: real, yMean: real, n: nat)
    ensures YCounted(Loop(AddPoint(values, m, yMean), NO_SUMS, n),
                     Loop(AddValue(values), 0.0, n), n as real, yMean)
  {
    var related := (s: Sums, sum: real, k: nat) => YCounted(s, sum, k as real, yMean);
    forall s, sum, k: nat | related(s, sum, k) ensures related(AddPoint(values, m, yMean)(s, k), AddValue(values)(sum, k), k + 1) {
      PointCountsY(s, sum, k as real, yMean, k as real - m, At(values, k));
      assert (k + 1) as real == k as real + 1.0;
    }
    LoopsRelate(AddPoint(values, m, yMean), NO_SUMS, AddValue(values), 0.0, related, n);
  }

  lemma DeviationsCancel(values: seq<real>)
    requires values != []
    ensures Deviations(values, |values|).y == 0.0
  {
    YSums(values, XMean(|values|), Mean(values), |values|);
    assert |values| as real * (Total(values) / |values| as real) == Total(values);
  }

  // Residuals in terms of the sums.

  /** The sum of the squares of dy - slope * dx + c over n points, by their sums. */
  function Quadratic(s: Sums, n: real, slope: real, c: real): real {
    s.yy - 2.0 * slope * s.xy + slope * slope * s.xx + 2.0 * c * (s.y - slope * s.x) + n * (c * c)
  }

  lemma Distribute(a: real, b: real, c: real)
    ensures a * (b + c) == a * b + a * c
  {
  }

  lemma SquareOfSum(r: real, c: real)
    ensures (r + c) * (r + c) == r * r + 2.0 * c * r + c * c
  {
  }

  lemma SquareOfResidual(dy: real, slope: real, dx: real)
    ensures (dy - slope * dx) * (dy - slope * dx)
         == dy * dy - 2.0 * slope * (dx * dy) + slope * slope * (dx * dx)
  {
    assert (slope * dx) * (slope * dx) == slope * slope * (dx * dx);
    assert (slope * dx) * dy == slope * (dx * dy);
  }

  /** The part that is linear in c, after one more point. */
  lemma CrossTerm(s: Sums, slope: real, c: real, dx: real, dy: real)
    ensures 2.0 * c * ((s.y + dy) - slope * (s.x + dx))
         == 2.0 * c * (s.y - slope * s.x) + 2.0 * c * (dy - slope * dx)
  {
    Distribute(slope, s.x, dx);
    var before, more := s.y - slope * s.x, dy - slope * dx;
    assert (s.y + dy) - slope * (s.x + dx) == before + more;
    Distribute(2.0 * c, before, more);
  }

  lemma SquareTerms(s: Sums, n: real, slope: real, c: real, dx: real, dy: real)
    ensures 2.0 * slope * (s.xy + dx * dy) == 2.0 * slope * s.xy + 2.0 * slope * (dx * dy)
    ensures slope * slope * (s.xx + dx * dx) == slope * slope * s.xx + slope * slope * (dx * dx)
    ensures (n + 1.0) * (c * c) == n * (c * c) + c * c
  {
    Distribute(2.0 * slope, s.xy, dx * dy);
    Distribute(slope * slope, s.xx, dx * dx);
    Distribute(c * c, n, 1.0);
  }

  lemma NextValue(s: Sums, n: real, slope: real, c: real, dx: real, dy: real)
    ensures Quadratic(Extend(s, dx, dy), n + 1.0, slope, c)
         == (s.yy + dy * dy) - (2.0 * slope * s.xy + 2.0 * slope * (dx * dy))
            + (slope * slope * s.xx + slope * slope * (dx * dx))
            + (2.0 * c * (s.y - slope * s.x) + 2.0 * c * (dy - slope * dx)) + (n * (c * c) + c * c)
  {
    CrossTerm(s, slope, c, dx, dy);
    SquareTerms(s, n, slope, c, dx, dy);
  }

  lemma SquareValue(slope: real, c: real, dx: real, dy: real)
    ensures Square(dy - slope * dx + c)
         == dy * dy - 2.0 * slope * (dx * dy) + slope * slope * (dx * dx) + 2.0 * c * (dy - slope * dx) + c * c
  {
    SquareOfSum(dy - slope * dx, c);
    SquareOfResidual(dy, slope, dx);
  }

  lemma Collect(next: real, now: real, square: real, a: real, b: real, c: real, d: real, e: real,
                aa: real, bb: real, cc: real, dd: real, ee: real)
    requires next == (a + aa) - (b + bb) + (c + cc) + (d + dd) + (e + ee)
    requires now == a - b + c + d + e && square == aa - bb + cc + dd + ee
    ensures next == now + square
  {
  }

  lemma QuadraticNext(s: Sums, n: real, slope: real, c: real, dx: real, dy: real)
    ensures Quadratic(Extend(s, dx, dy), n + 1.0, slope, c) == Quadratic(s, n, slope, c) + Square(dy - slope * dx + c)
  {
    NextValue(s, n, slope, c, dx, dy);
    SquareValue(slope, c, dx, dy);
    Collect(Quadratic(Extend(s, dx, dy), n + 1.0, slope, c), Quadratic(s, n, slope, c), Square(dy - slope * dx + c),
            s.yy, 2.0 * slope * s.xy, slope * slope * s.xx, 2.0 * c * (s.y - slope * s.x), n * (c * c),
            dy * dy, 2.0 * slope * (dx * dy), slope * slope * (dx * dx), 2.0 * c * (dy - slope * dx), c * c);
  }

  /** counted ties the sums to the sum of squared residuals, point by point. */
  ghost predicate Counts(counted: (Sums, real, real) -> bool, residual: (real, real) -> real, xMean: real, yMean: real) {
    && counted(NO_SUMS, 0.0, 0.0)
    && forall s, sum, x, y :: counted(s, sum, x) ==>
         counted(Extend(s, x - xMean, y - yMean), sum + Square(residual(x, y)), x + 1.0)
  }

  lemma CountedSums(values: seq<real>, counted: (Sums, real, real) -> bool, residual: (real, real) -> real,
      xMean: real, yMean: real, n: nat)
    requires Counts(counted, residual, xMean, yMean)
    ensures counted(Loop(AddPoint(values, xMean, yMean), NO_SUMS, n), Loop(AddResidual(values, residual), 0.0, n), n as real)
  {
    var related := (s: Sums, sum: real, k: nat) => counted(s, sum, k as real);
    forall s, sum, k: nat | related(s, sum, k)
      ensures related(AddPoint(values, xMean, yMean)(s, k), AddResidual(values, residual)(sum, k), k + 1)
    {
      assert (k + 1) as real == k as real + 1.0;
    }
    LoopsRelate(AddPoint(values, xMean, yMean), NO_SUMS, AddResidual(values, residual), 0.0, related, n);
  }

  function QuadraticIn(slope: real, c: real): (Sums, real, real) -> bool {
    (s, sum, n) => sum == Quadratic(s, n, slope, c)
  }

  lemma OnePoint(s: Sums, sum: real, x: real, y: real, slope: real, height: real, xMean: real, yMean: real)
    requires sum == Quadratic(s, x, slope, yMean - height)
    ensures sum + Square(Residual(x, y, xMean, slope, height))
         == Quadratic(Extend(s, x - xMean, y - yMean), x + 1.0, slope, yMean - height)
  {
    QuadraticNext(s, x, slope, yMean - height, x - xMean, y - yMean);
    SameResidual(x, y, xMean, yMean, slope, height);
  }

  lemma QuadraticCounts(slope: real, height: real, xMean: real, yMean: real)
    ensures Counts(QuadraticIn(slope, yMean - height), Line(xMean, slope, height), xMean, yMean)
  {
    var counted, residual := QuadraticIn(slope, yMean - height), Line(xMean, slope, height);
    forall s, sum, x, y | counted(s, sum, x)
      ensures counted(Extend(s, x - xMean, y - yMean), sum + Square(residual(x, y)), x + 1.0)
    {
      OnePoint(s, sum, x, y, slope, height, xMean, yMean);
    }
    assert counted(NO_SUMS, 0.0, 0.0);
  }

  lemma SameResidual(x: real, y: real, xMean: real, yMean: real, slope: real, height: real)
    ensures Residual(x, y, xMean, slope, height) == y - yMean - slope * (x - xMean) + (yMean - height)
  {
  }

  lemma ResidualsAreQuadratic(values: seq<real>, slope: real, height: real)
    requires values != []
    ensures Residuals(values, slope, height)
         == Quadratic(Deviations(values, |values|), |values| as real, slope, Mean(values) - height)
  {
    var xMean, yMean := XMean(|values|), Mean(values);
    QuadraticCounts(slope, height, xMean, yMean);
    CountedSums(values, QuadraticIn(slope, yMean - height), Line(xMean, slope, height), xMean, yMean, |values|);
  }

  // The least of them.

  /** Completing the square around slope b, where the sums of deviations are zero. */
  lemma CompleteSquare(s: Sums, n: real, b: real, slope: real, c: real)
    requires s.x == 0.0 && s.y == 0.0 && s.xy == b * s.xx
    ensures Quadratic(s, n, slope, c) == Quadratic(s, n, b, 0.0) + s.xx * Square(slope - b) + n * Square(c)
  {
    assert 2.0 * c * (s.y - slope * s.x) == 0.0;
    assert 2.0 * slope * (b * s.xx) == (2.0 * slope * b) * s.xx;
    assert 2.0 * b * (b * s.xx) == (2.0 * b * b) * s.xx;
    assert (slope - b) * (slope - b) == slope * slope - 2.0 * slope * b + b * b;
    assert s.xx * ((slope - b) * (slope - b)) == slope * slope * s.xx - (2.0 * slope * b) * s.xx + b * b * s.xx;
  }

  lemma NotNegative(k: real, d: real)
    requires k > 0.0
    ensures k * Square(d) >= 0.0 && (k * Square(d) == 0.0 <==> d == 0.0)
  {
    if d != 0.0 {
      SquareIsPositive(d, Square(d));
      Positive(k, Square(d), k * Square(d));
    }
  }

  lemma SquareIsPositive(d: real, square: real)
    requires d != 0.0 && square == d * d
    ensures square > 0.0
  {
    if d > 0.0 {
      Positive(d, d, square);
    } else {
      Opposite(d, -d, square);
      Positive(-d, -d, square);
    }
  }

  lemma Opposite(d: real, e: real, square: real)
    requires d + e == 0.0 && square == d * d
    ensures square == e * e
  {
    assert d * (d + e) == 0.0 && d * (d + e) == d * d + d * e;
    assert (d + e) * e == 0.0 && (d + e) * e == d * e + e * e;
  }

  lemma Positive(a: real, b: real, product: real)
    requires a > 0.0 && b > 0.0 && product == a * b
    ensures product > 0.0
  {
  }

  /** best is the least, and only the line with slope b and that height reaches it. */
  predicate LeastAt(residuals: real, best: real, slope: real, b: real, height: real, yMean: real) {
    best <= residuals && (best == residuals <==> slope == b && height == yMean)
  }

  /** The deviations cancel, x varies, and b is the quotient of the other two sums. */
  predicate Fits(s: Sums, b: real) {
    s.x == 0.0 && s.y == 0.0 && s.xx > 0.0 && s.xy == b * s.xx
  }

  lemma LeastQuadratic(s: Sums, n: real, b: real, slope: real, height: real, yMean: real, residuals: real, best: real)
    requires Fits(s, b) && n > 0.0
    requires residuals == Quadratic(s, n, slope, yMean - height) && best == Quadratic(s, n, b, yMean - yMean)
    ensures LeastAt(residuals, best, slope, b, height, yMean)
  {
    CompleteSquare(s, n, b, slope, yMean - height);
    NotNegative(s.xx, slope - b);
    NotNegative(n, yMean - height);
  }

  lemma DeviationsFit(values: seq<real>, b: real)
    requires |values| >= 2 && IsSlope(values, b)
    ensures Fits(Deviations(values, |values|), b)
  {
    DenominatorIsCubic(values);
    DeviationsCancel(values);
  }

  /** b is the quotient the code computes. */
  predicate IsSlope(values: seq<real>, b: real)
    requires |values| >= 2
  {
    Deviations(values, |values|).xy == b * Deviations(values, |values|).xx
  }

  /** The line of slope b through the means leaves no larger sum of squared residuals than any
      line, and every line that leaves no more is that line. */
  lemma SlopeIsLeastSquares(values: seq<real>, b: real, slope: real, height: real)
    requires |values| >= 2 && IsSlope(values, b)
    ensures LeastAt(Residuals(values, slope, height), Residuals(values, b, Mean(values)), slope, b, height, Mean(values))
  {
    DeviationsFit(values, b);
    ResidualsAreQuadratic(values, slope, height);
    ResidualsAreQuadratic(values, b, Mean(values));
    LeastQuadratic(Deviations(values, |values|), |values| as real, b, slope, height, Mean(values),
      Residuals(values, slope, height), Residuals(values, b, Mean(values)));
  }

  method Sum(values: seq<real>) returns (sum: real)
    ensures sum == Total(values)
  {
    sum := 0.0;
    var index := 0;
    while index < |values|
      invariant index <= |values| && sum == Loop(AddValue(values), 0.0, index)
    {
      sum := sum + values[index];
      index := index + 1;
    }
  }

  /** The code's two accumulators are two of the sums. */
  predicate Accumulated(s: Sums, numerator: real, denominator: real) {
    numerator == s.xy && denominator == s.xx
  }

  lemma AccumulateNext(s: Sums, numerator: real, denominator: real, dx: real, dy: real)
    requires Accumulated(s, numerator, denominator)
    ensures Accumulated(Extend(s, dx, dy), numerator + dx * dy, denominator + dx * dx)
  {
  }

  lemma Quotient(a: real, d: real)
    requires d > 0.0
    ensures a == a / d * d
  {
  }

  lemma QuotientIsSlope(values: seq<real>, numerator: real, denominator: real, slope: real)
    requires |values| >= 2 && Accumulated(Deviations(values, |values|), numerator, denominator)
    requires slope == if denominator == 0.0 then 0.0 else numerator / denominator
    ensures IsSlope(values, slope)
  {
    DenominatorIsCubic(values);
    Quotient(numerator, denominator);
  }

  /** slope; its test for a zero denominator never succeeds. */
  method Slope(values: seq<real>) returns (slope: real)
    ensures |values| < 2 ==> slope == 0.0
    ensures |values| >= 2 ==> IsSlope(values, slope)
  {
    if |values| < 2 {
      return 0.0;
    }
    var xMean := (|values| as real - 1.0) / 2.0;
    var total := Sum(values);
    var yMean := total / |values| as real;
    var numerator, denominator := 0.0, 0.0;
    var index := 0;
    while index < |values|
      invariant index <= |values|
      invariant Accumulated(Deviations(values, index), numerator, denominator)
    {
      var xDelta := index as real - xMean;
      AccumulateNext(Deviations(values, index), numerator, denominator, xDelta, values[index] - yMean);
      numerator := numerator + xDelta * (values[index] - yMean);
      denominator := denominator + xDelta * xDelta;
      index := index + 1;
    }
    slope := if denominator == 0.0 then 0.0 else numerator / denominator;
    QuotientIsSlope(values, numerator, denominator, slope);
  }
}
