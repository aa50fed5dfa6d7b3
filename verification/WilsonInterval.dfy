/** The score interval of `scripts/adversarial_harness.py` over exact reals. The square root
    is a parameter: the non-negative number whose square is the radicand. */
module WilsonInterval {

  /** The two-sided 95% normal quantile the program uses. */
  const Z := 1.959963984540054

  function Times(x: real, y: real): (product: real) {
    x * y
  }

  function Over(x: real, y: real): (quotient: real)
    requires y != 0.0
  {
    x / y
  }

  lemma OverTimes(x: real, y: real)
    requires y != 0.0
    ensures Over(x, y) * y == x
  {
  }

  /** `z` squared over the trials. */
  function Weight(trials: int): (weight: real)
    requires trials > 0
  {
    Over(Z * Z, trials as real)
  }

  function Rate(successes: int, trials: int): (rate: real)
    requires trials > 0
  {
    Over(successes as real, trials as real)
  }

  /** What the square root is taken of. */
  function Radicand(successes: int, trials: int): (radicand: real)
    requires trials > 0
  {
    var n, rate := trials as real, Rate(successes, trials);
    Over(rate * (1.0 - rate), n) + Over(Z * Z, 4.0 * n * n)
  }

  ghost predicate IsRoot(root: real, successes: int, trials: int)
    requires trials > 0
  {
    root >= 0.0 && Times(root, root) == Radicand(successes, trials)
  }

  function Max(x: real, y: real): (larger: real) {
    if x >= y then x else y
  }

  function Min(x: real, y: real): (smaller: real) {
    if x <= y then x else y
  }

  function Centre(successes: int, trials: int): (centre: real)
    requires trials > 0
    requires 1.0 + Weight(trials) != 0.0
  {
    Over(Rate(successes, trials) + Over(Z * Z, 2.0 * trials as real), 1.0 + Weight(trials))
  }

  function Spread(trials: int, root: real): (spread: real)
    requires trials > 0
    requires 1.0 + Weight(trials) != 0.0
  {
    Over(Times(Z, root), 1.0 + Weight(trials))
  }

  lemma WeightPositive(trials: int)
    requires trials > 0
    ensures Weight(trials) > 0.0
    ensures Over(Z * Z, 2.0 * trials as real) == Weight(trials) / 2.0
    ensures Over(Z * Z, 4.0 * trials as real * trials as real) * (Z * Z) == Times(Weight(trials), Weight(trials)) / 4.0
  {
    var n, w := trials as real, Weight(trials);
    OverTimes(Z * Z, n);
    OverTimes(Z * Z, 2.0 * n);
    OverTimes(Z * Z, 4.0 * n * n);
  }

  /** The interval as computed, clamps included. */
  function Interval(successes: int, trials: int, root: real): (ends: (real, real)) {
    if trials <= 0 then (0.0, 1.0)
    else
      WeightPositive(trials);
      (Max(0.0, Centre(successes, trials) - Spread(trials, root)), Min(1.0, Centre(successes, trials) + Spread(trials, root)))
  }

  /** How far a rate `e` is from the observed one, squared, against what `Z` deviations allow. */
  function Excess(rate: real, weight: real, e: real): (excess: real) {
    (rate - e) * (rate - e) - weight * (e * (1.0 - e))
  }

  /** `Z` times the root, squared. */
  function Allowance(rate: real, weight: real): (allowance: real) {
    weight * (rate * (1.0 - rate)) + weight * weight / 4.0
  }

  lemma RootSquared(successes: int, trials: int, root: real)
    requires trials > 0 && IsRoot(root, successes, trials)
    ensures Times(Times(Z, root), Times(Z, root)) == Allowance(Rate(successes, trials), Weight(trials))
  {
    var n, rate := trials as real, Rate(successes, trials);
    var spread := rate * (1.0 - rate);
    WeightPositive(trials);
    OverTimes(spread, n);
    OverTimes(Z * Z, n);
    SameQuotient(Over(spread, n), Weight(trials), spread, Z * Z, n);
    var zz := Z * Z;
    assert Times(Times(Z, root), Times(Z, root)) == zz * Times(root, root);
    assert zz * Radicand(successes, trials) == zz * Over(spread, n) + zz * Over(zz, 4.0 * n * n);
  }

  lemma SameQuotient(a: real, b: real, x: real, y: real, n: real)
    requires n > 0.0 && a * n == x && b * n == y
    ensures y * a == b * x
  {
    assert y * a == b * n * a;
    assert b * x == b * (a * n);
  }

  /** Completing the square. */
  lemma CompletedSquare(p: real, a: real, e: real)
    ensures var u := Times(1.0 + a, e) - (p + a / 2.0);
            Times(1.0 + a, Excess(p, a, e)) == Times(u, u) - Allowance(p, a)
  {
    var d, m := 1.0 + a, p + a / 2.0;
    assert Excess(p, a, e) == d * (e * e) - 2.0 * (m * e) + p * p by {
      assert (p - e) * (p - e) == p * p - 2.0 * (p * e) + e * e;
      assert a * (e * (1.0 - e)) == a * e - a * (e * e);
      assert m * e == p * e + a * e / 2.0;
    }
    assert Times(d * e - m, d * e - m) == d * (d * (e * e)) - 2.0 * (d * (m * e)) + m * m;
    assert m * m - Allowance(p, a) == d * (p * p);
  }

  lemma Positive(x: real, y: real)
    requires x > 0.0 && y > 0.0
    ensures x * y > 0.0
  {
  }

  lemma NonNegative(x: real, y: real)
    requires x >= 0.0 && y >= 0.0
    ensures x * y >= 0.0
  {
  }

  lemma SquareLess(x: real, y: real)
    requires 0.0 <= x < y
    ensures Times(x, x) < Times(y, y)
  {
    var gap := y - x;
    assert y * y == x * x + gap * (y + x);
    Positive(gap, y + x);
  }

  lemma SquareOrder(x: real, y: real)
    requires y >= 0.0
    ensures -y <= x <= y <==> Times(x, x) <= Times(y, y)
    ensures (x == y || x == -y) <==> Times(x, x) == Times(y, y)
  {
    var size := if x >= 0.0 then x else -x;
    assert Times(size, size) == Times(x, x);
    if size < y {
      SquareLess(size, y);
    } else if y < size {
      SquareLess(y, size);
    }
  }

  lemma OverOrder(x: real, d: real, e: real)
    requires d > 0.0
    ensures e <= Over(x, d) <==> Times(d, e) <= x
    ensures e >= Over(x, d) <==> Times(d, e) >= x
  {
    OverTimes(x, d);
    var q := Over(x, d);
    if e < q {
      Positive(d, q - e);
    } else if e > q {
      Positive(d, e - q);
    }
  }

  lemma SignKept(d: real, x: real)
    requires d > 0.0
    ensures Times(d, x) <= 0.0 <==> x <= 0.0
    ensures Times(d, x) == 0.0 <==> x == 0.0
  {
  }

  /** The rates within the allowance are exactly those between the two quotients. */
  lemma Between(p: real, a: real, root: real, e: real)
    requires a > 0.0 && root >= 0.0 && Times(root, root) == Allowance(p, a)
    ensures var d, m := 1.0 + a, p + a / 2.0;
            && (Excess(p, a, e) <= 0.0 <==> Over(m - root, d) <= e <= Over(m + root, d))
            && (Excess(p, a, e) == 0.0 <==> e == Over(m - root, d) || e == Over(m + root, d))
  {
    hide Times, Excess, Over, Allowance;
    var d, m := 1.0 + a, p + a / 2.0;
    CompletedSquare(p, a, e);
    var u := Times(d, e) - m;
    SignKept(d, Excess(p, a, e));
    SquareOrder(u, root);
    OverOrder(m - root, d, e);
    OverOrder(m + root, d, e);
  }

  lemma OverSum(x: real, y: real, d: real)
    requires d > 0.0
    ensures Over(x, d) + Over(y, d) == Over(x + y, d) && Over(x, d) - Over(y, d) == Over(x - y, d)
  {
  }

  /** The two ends before clamping, and the test the interval inverts. */
  lemma Ends(successes: int, trials: int, root: real, e: real)
    requires trials > 0 && IsRoot(root, successes, trials)
    ensures Weight(trials) > 0.0
    ensures var rate, mid, half := Rate(successes, trials), Centre(successes, trials), Spread(trials, root);
            var low, high := mid - half, mid + half;
            && (Excess(rate, Weight(trials), e) <= 0.0 <==> low <= e <= high)
            && (Excess(rate, Weight(trials), e) == 0.0 <==> e == low || e == high)
            && low <= high
  {
    WeightPositive(trials);
    RootSquared(successes, trials, root);
    var a, rate, t := Weight(trials), Rate(successes, trials), Times(Z, root);
    assert t >= 0.0;
    hide Times, Excess, Over, Weight, Rate, Allowance, IsRoot;
    Between(rate, a, t, e);
    OverSum(rate + a / 2.0, t, 1.0 + a);
    OverOrder(t, 1.0 + a, 0.0);
    ZeroTimes(1.0 + a);
  }

  lemma ZeroTimes(d: real)
    ensures Times(d, 0.0) == 0.0
  {
  }

  lemma RateRange(successes: int, trials: int)
    requires trials > 0 && 0 <= successes <= trials
    ensures 0.0 <= Rate(successes, trials) <= 1.0
    ensures Rate(successes, trials) == 0.0 <==> successes == 0
    ensures Rate(successes, trials) == 1.0 <==> successes == trials
  {
    var n := trials as real;
    OverTimes(successes as real, n);
    var rate := Rate(successes, trials);
    hide Over, Rate;
    if rate < 0.0 {
      Positive(-rate, n);
    } else if rate > 1.0 {
      Positive(rate - 1.0, n);
    } else if successes == trials && rate < 1.0 {
      Positive(1.0 - rate, n);
    } else if successes == 0 && rate > 0.0 {
      Positive(rate, n);
    }
  }

  lemma SquareOfZero(x: real)
    requires x == 0.0
    ensures Times(x, x) == 0.0
  {
  }

  lemma PositiveTimes(x: real, y: real)
    requires x > 0.0 && y > 0.0
    ensures Times(x, y) > 0.0
  {
  }

  lemma SquareOfNegation(x: real)
    ensures Times(-x, -x) == Times(x, x)
  {
  }

  lemma SquareOfOther(x: real)
    requires x != 0.0
    ensures Times(x, x) > 0.0
  {
    hide Times;
    if x < 0.0 {
      PositiveTimes(-x, -x);
      SquareOfNegation(x);
    } else {
      PositiveTimes(x, x);
    }
  }

  lemma SquareSign(x: real)
    ensures Times(x, x) >= 0.0 && (Times(x, x) == 0.0 <==> x == 0.0)
  {
    hide Times;
    if x == 0.0 {
      SquareOfZero(x);
    } else {
      SquareOfOther(x);
    }
  }

  lemma ExcessIsSquare(p: real, a: real, e: real)
    requires e == 0.0 || e == 1.0
    ensures Excess(p, a, e) == Times(p - e, p - e)
  {
  }

  lemma ExcessAtRate(p: real, a: real)
    requires 0.0 <= p <= 1.0 && a > 0.0
    ensures Excess(p, a, p) <= 0.0
  {
    var s := p * (1.0 - p);
    NonNegative(p, 1.0 - p);
    NonNegative(a, s);
    assert Excess(p, a, p) == -(a * s);
  }

  /** Outside the unit interval nothing is within the allowance. */
  lemma ExcessOutside(p: real, a: real, e: real)
    requires 0.0 <= p <= 1.0 && a > 0.0 && (e < 0.0 || e > 1.0)
    ensures Excess(p, a, e) > 0.0
  {
    var size, side := if e < 0.0 then p - e else e - p, if e < 0.0 then -(e * (1.0 - e)) else e * (e - 1.0);
    Positive(size, size);
    if e < 0.0 {
      Positive(-e, 1.0 - e);
    } else {
      Positive(e, e - 1.0);
    }
    Positive(a, side);
    assert Excess(p, a, e) == size * size + a * side;
  }

  /** The interval lies in the unit interval and holds the observed rate, its clamps change
      nothing, and it is exactly the set of rates `e` for which the observed rate lies within
      `Z` standard deviations of `e`; its ends are the rates exactly `Z` deviations away. */
  lemma IntervalInvertsTheTest(successes: int, trials: int, root: real, e: real)
    requires trials > 0 && 0 <= successes <= trials && IsRoot(root, successes, trials)
    ensures Weight(trials) > 0.0
    ensures var (low, high) := Interval(successes, trials, root);
            && 0.0 <= low <= Rate(successes, trials) <= high <= 1.0
            && low == Centre(successes, trials) - Spread(trials, root)
            && high == Centre(successes, trials) + Spread(trials, root)
            && (Excess(Rate(successes, trials), Weight(trials), e) <= 0.0 <==> low <= e <= high)
            && (Excess(Rate(successes, trials), Weight(trials), e) == 0.0 <==> e == low || e == high)
            && (low == 0.0 <==> successes == 0)
            && (high == 1.0 <==> successes == trials)
  {
    var rate, a := Rate(successes, trials), Weight(trials);
    WeightPositive(trials);
    var low, high := Centre(successes, trials) - Spread(trials, root), Centre(successes, trials) + Spread(trials, root);
    RateRange(successes, trials);
    hide Times, Excess, Over, Weight, Rate, IsRoot, Centre, Spread;
    ExcessAtRate(rate, a);
    ExcessIsSquare(rate, a, 0.0);
    SquareSign(rate - 0.0);
    ExcessIsSquare(rate, a, 1.0);
    SquareSign(rate - 1.0);
    Ends(successes, trials, root, e);
    Ends(successes, trials, root, rate);
    Ends(successes, trials, root, 0.0);
    Ends(successes, trials, root, 1.0);
    Ends(successes, trials, root, low);
    Ends(successes, trials, root, high);
    if low < 0.0 {
      ExcessOutside(rate, a, low);
    }
    if high > 1.0 {
      ExcessOutside(rate, a, high);
    }
  }

  lemma MirroredRate(successes: int, trials: int)
    requires trials > 0
    ensures Rate(trials - successes, trials) == 1.0 - Rate(successes, trials)
    ensures Radicand(trials - successes, trials) == Radicand(successes, trials)
  {
    var n := trials as real;
    OverSum(n, successes as real, n);
  }

  /** Counting the other outcome mirrors the interval. */
  lemma IntervalMirrors(successes: int, trials: int, root: real)
    requires trials > 0 && 0 <= successes <= trials && IsRoot(root, successes, trials)
    ensures IsRoot(root, trials - successes, trials)
    ensures Interval(trials - successes, trials, root)
         == (1.0 - Interval(successes, trials, root).1, 1.0 - Interval(successes, trials, root).0)
  {
    WeightPositive(trials);
    MirroredRate(successes, trials);
    MirroredCentre(successes, trials);
    var low, high := Centre(successes, trials) - Spread(trials, root), Centre(successes, trials) + Spread(trials, root);
    IntervalInvertsTheTest(successes, trials, root, 0.0);
    hide Over, Weight, Rate, Radicand, Times, Centre, Spread, Excess;
  }

  lemma MirroredCentre(successes: int, trials: int)
    requires trials > 0
    ensures Weight(trials) > 0.0
    ensures Centre(trials - successes, trials) == 1.0 - Centre(successes, trials)
  {
    WeightPositive(trials);
    MirroredRate(successes, trials);
    var a, rate := Weight(trials), Rate(successes, trials);
    hide Weight, Rate;
    OverSum(1.0 + a, rate + a / 2.0, 1.0 + a);
    OverItself(1.0 + a);
    hide Over;
  }

  lemma OverItself(x: real)
    requires x > 0.0
    ensures Over(x, x) == 1.0
  {
  }

  /** So many successes are within `z` standard deviations of the `n * e` to be expected. */
  predicate Within(successes: real, n: real, z: real, e: real) {
    (successes - n * e) * (successes - n * e) <= z * z * n * (e * (1.0 - e))
  }

  lemma Scaled(d: real, w: real, k: real, n: real, miss: real, zz: real)
    requires n > 0.0 && miss == n * d && w * n == zz
    ensures (d * d - w * k) * (n * n) == miss * miss - zz * n * k
  {
    assert (d * d) * (n * n) == (n * d) * (n * d);
    assert (w * k) * (n * n) == (w * n) * (n * k);
  }

  lemma SignScaled(x: real, y: real)
    requires y > 0.0
    ensures x <= 0.0 <==> x * y <= 0.0
  {
    if x > 0.0 {
      Positive(x, y);
    } else if x < 0.0 {
      Positive(-x, y);
    }
  }

  lemma SignSquared(x: real, n: real)
    requires n > 0.0
    ensures x <= 0.0 <==> x * (n * n) <= 0.0
  {
    SignScaled(x, n);
    SignScaled(x * n, n);
    assert x * n * n == x * (n * n);
  }

  lemma ExcessIsWithin(rate: real, weight: real, successes: real, n: real, z: real, e: real)
    requires n > 0.0 && Times(rate, n) == successes && Times(weight, n) == Times(z, z)
    ensures Excess(rate, weight, e) <= 0.0 <==> Within(successes, n, z, e)
  {
    var d, k, miss := rate - e, e * (1.0 - e), successes - n * e;
    assert miss == n * d;
    Scaled(d, weight, k, n, miss, z * z);
    SignSquared(d * d - weight * k, n);
  }

  lemma CountsBack(successes: int, trials: int)
    requires trials > 0
    ensures trials as real > 0.0 && Times(Rate(successes, trials), trials as real) == successes as real
    ensures Times(Weight(trials), trials as real) == Times(1.959963984540054, 1.959963984540054)
  {
    OverTimes(successes as real, trials as real);
    OverTimes(Z * Z, trials as real);
  }

  /** In plain counts: a rate `e` is in the interval exactly when the successes are within
      1.96 standard deviations, to all its digits, of the `trials * e` to be expected. With no
      trials every rate is. */
  lemma IntervalInCounts(successes: int, trials: int, root: real, e: real)
    ensures trials <= 0 ==> Interval(successes, trials, root) == (0.0, 1.0)
    ensures trials > 0 && 0 <= successes <= trials && IsRoot(root, successes, trials) ==>
              var (low, high) := Interval(successes, trials, root);
              low <= e <= high <==> Within(successes as real, trials as real, 1.959963984540054, e)
  {
    if trials > 0 && 0 <= successes <= trials && IsRoot(root, successes, trials) {
      hide *;
      IntervalInvertsTheTest(successes, trials, root, e);
      CountsBack(successes, trials);
      ExcessIsWithin(Rate(successes, trials), Weight(trials), successes as real, trials as real, 1.959963984540054, e);
    }
  }
}
