/** Formal power series over the reals, written as syntax: a product's
    coefficients are convolutions, and the product rule ties them to those of
    its differentiated factors. */
module PowerSeries {

  datatype Series =
    | Zero
    | Unit
    | Exponential(curve: seq<real>, from: nat, base: real)  // sum over j of curve(from + j) * (base x)^j / j!
    | Times(left: Series, right: Series)
    | Plus(rest: Series, scale: real, last: Series)         // rest + scale * last
    | Derivative(of: Series)

  function Factorial(n: nat): (f: nat)
    ensures f >= 1
  {
    if n == 0 then 1 else n * Factorial(n - 1)
  }

  function Pow(x: real, n: nat): real {
    if n == 0 then 1.0 else x * Pow(x, n - 1)
  }

  /** A curve's value, zero past its end. */
  function At(curve: seq<real>, j: nat): real {
    if j < |curve| then curve[j] else 0.0
  }

  function Mul(x: real, y: real): real {
    x * y
  }

  function ExpCoef(curve: seq<real>, from: nat, base: real, n: nat): real {
    At(curve, from + n) * Pow(base, n) / Factorial(n) as real
  }

  /** The coefficient of `x^n`. */
  function Coef(s: Series, n: nat): real
    decreases s, 1, 0
  {
    match s
    case Zero => 0.0
    case Unit => if n == 0 then 1.0 else 0.0
    case Exponential(curve, from, base) => ExpCoef(curve, from, base, n)
    case Times(_, _) => Conv(s, n, n + 1)
    case Plus(rest, scale, last) => Coef(rest, n) + Mul(scale, Coef(last, n))
    case Derivative(a) => Mul((n + 1) as real, Coef(a, n + 1))
  }

  /** The first `k` summands of the `n`-th coefficient of a product. */
  function Conv(s: Series, n: nat, k: nat): real
    requires s.Times? && k <= n + 1
    decreases s, 0, k
  {
    if k == 0 then 0.0
    else Conv(s, n, k - 1) + Mul(Coef(s.left, k - 1), Coef(s.right, n - (k - 1)))
  }

  lemma {:induction false} ConvPointwise(s: Series, t: Series, n: nat, k: nat)
    requires s.Times? && t.Times? && k <= n + 1
    requires forall l: nat :: l <= n ==> Coef(s.left, l) == Coef(t.left, l)
    requires forall l: nat :: l <= n ==> Coef(s.right, l) == Coef(t.right, l)
    ensures Conv(s, n, k) == Conv(t, n, k)
  {
    if k > 0 {
      ConvPointwise(s, t, n, k - 1);
    }
  }

  lemma MulAdd(s: real, x: real, y: real)
    ensures Mul(s, x + y) == Mul(s, x) + Mul(s, y)
    ensures Mul(x + y, s) == Mul(x, s) + Mul(y, s)
  {
  }

  lemma MulShuffle(x: real, y: real, z: real)
    ensures Mul(Mul(x, y), z) == Mul(x, Mul(y, z)) == Mul(y, Mul(x, z))
    ensures Mul(x, y) == Mul(y, x)
  {
  }

  /** A product is linear in its left factor. */
  lemma {:induction false} ConvLinearLeft(a: Series, s: real, b: Series, t: Series, n: nat, k: nat)
    requires k <= n + 1
    ensures Conv(Times(Plus(a, s, b), t), n, k)
         == Conv(Times(a, t), n, k) + Mul(s, Conv(Times(b, t), n, k))
  {
    if k > 0 {
      ConvLinearLeft(a, s, b, t, n, k - 1);
      var x, y, z := Coef(a, k - 1), Coef(b, k - 1), Coef(t, n - (k - 1));
      var rest := Conv(Times(b, t), n, k - 1);
      hide Mul;
      MulAdd(z, x, Mul(s, y));
      MulShuffle(s, y, z);
      MulAdd(s, rest, Mul(y, z));
    }
  }

  lemma {:induction false} ConvScaleRight(a: Series, b: Series, s: real, c: Series, n: nat, k: nat)
    requires k <= n + 1
    requires forall l: nat :: l <= n ==> Coef(b, l) == Mul(s, Coef(c, l))
    ensures Conv(Times(a, b), n, k) == Mul(s, Conv(Times(a, c), n, k))
  {
    if k > 0 {
      ConvScaleRight(a, b, s, c, n, k - 1);
      var x, y := Coef(a, k - 1), Coef(c, n - (k - 1));
      var rest := Conv(Times(a, c), n, k - 1);
      hide Mul;
      MulShuffle(x, s, y);
      MulAdd(s, rest, Mul(x, y));
    }
  }

  lemma {:induction false} LeibnizPrefix(a: Series, b: Series, n: nat, k: nat)
    requires 1 <= k <= n + 1
    ensures Mul((n + 1) as real, Conv(Times(a, b), n + 1, k))
         == Conv(Times(Derivative(a), b), n, k - 1) + Conv(Times(a, Derivative(b)), n, k)
  {
    var l := k - 1;
    var m, p, q := (n + 1) as real, l as real, (n - l + 1) as real;
    var x, y, rest := Coef(a, l), Coef(b, n + 1 - l), Conv(Times(a, b), n + 1, l);
    assert Coef(Derivative(b), n - l) == Mul(q, y);
    assert l == 0 ==> Mul(p, Mul(x, y)) == 0.0 == Mul(m, rest);
    hide Mul;
    MulAdd(m, rest, Mul(x, y));
    MulAdd(Mul(x, y), p, q);
    MulShuffle(x, q, y);
    MulShuffle(p, x, y);
    if l > 0 {
      LeibnizPrefix(a, b, n, l);
      assert Coef(Derivative(a), l - 1) == Mul(p, x);
    }
  }

  /** The product rule, coefficient by coefficient. */
  lemma {:induction false} Leibniz(a: Series, b: Series, n: nat)
    ensures Coef(Derivative(Times(a, b)), n)
         == Coef(Times(Derivative(a), b), n) + Coef(Times(a, Derivative(b)), n)
  {
    var m, x, y := (n + 1) as real, Coef(a, n + 1), Coef(b, 0);
    hide Mul;
    LeibnizPrefix(a, b, n, n + 1);
    MulAdd(m, Conv(Times(a, b), n + 1, n + 1), Mul(x, y));
    MulShuffle(m, x, y);
    assert Coef(Derivative(a), n) == Mul(m, x);
    assert Coef(Times(a, b), n + 1) == Conv(Times(a, b), n + 1, n + 1) + Mul(x, y);
    assert n + 1 - (n + 1) == 0 == n - n;
  }

  lemma CancelFactor(m: real, f: real, v: real, s: real, p: real)
    requires m > 0.0 && f > 0.0
    ensures m * (v * (s * p) / (m * f)) == s * (v * p / f)
  {
    var x := v * p / f;
    assert x * f == v * p;
    assert v * (s * p) == s * (x * f);
    assert v * (s * p) / (m * f) == (s * x * f) / (m * f) == s * x / m;
  }

  /** Differentiating an exponential series starts its curve one place later. */
  lemma {:induction false} ExponentialDerivative(curve: seq<real>, from: nat, base: real, n: nat)
    ensures Coef(Derivative(Exponential(curve, from, base)), n)
         == Mul(base, Coef(Exponential(curve, from + 1, base), n))
  {
    var m, f := (n + 1) as real, Factorial(n) as real;
    assert Factorial(n + 1) as real == m * f;
    CancelFactor(m, f, At(curve, from + 1 + n), base, Pow(base, n));
    assert from + (n + 1) == from + 1 + n;
  }
}

/** The whole-band survival curve of `scripts/analyze_sibling_exposure.py`: a
    truncated polynomial product as the fast form of a draw-by-draw process. */
module BandSurvival {
  import opened PowerSeries

  /** One cell of a band: its share of the requests and its survival curve. */
  datatype Cell = Cell(share: real, curve: seq<real>)

  // ----- the specification: one request at a time -----

  /** No cell has missed yet, when cell `i` has been asked `counts[i]` times. */
  function AllSurvive(cells: seq<Cell>, counts: seq<nat>): real
    requires |cells| == |counts|
  {
    if |cells| == 0 then 1.0
    else
      var m := |cells| - 1;
      AllSurvive(cells[..m], counts[..m]) * At(cells[m].curve, counts[m])
  }

  function Raise(counts: seq<nat>, i: nat): seq<nat>
    requires i < |counts|
  {
    counts[i := counts[i] + 1]
  }

  /** The probability of no miss after `n` more requests, each of which draws a
      cell by share and adds one to that cell's count. */
  function Process(cells: seq<Cell>, counts: seq<nat>, n: nat): real
    requires |cells| == |counts|
    decreases n, |cells| + 1
  {
    if n == 0 then AllSurvive(cells, counts) else DrawOne(cells, counts, n, |cells|)
  }

  /** The contribution of the draws that land in one of the first `k` cells. */
  function DrawOne(cells: seq<Cell>, counts: seq<nat>, n: nat, k: nat): real
    requires |cells| == |counts| && n > 0 && k <= |cells|
    decreases n, k
  {
    if k == 0 then 0.0
    else
      DrawOne(cells, counts, n, k - 1)
      + Mul(cells[k - 1].share, Process(cells, Raise(counts, k - 1), n - 1))
  }

  // ----- the generating function -----

  function Factor(cell: Cell, c: nat): Series {
    Exponential(cell.curve, c, cell.share)
  }

  function Product(cells: seq<Cell>, counts: seq<nat>): Series
    requires |cells| == |counts|
  {
    if |cells| == 0 then Unit
    else
      var m := |cells| - 1;
      Times(Product(cells[..m], counts[..m]), Factor(cells[m], counts[m]))
  }

  /** The share-weighted sum of the products with one of the first `k` counts raised. */
  function RaisedSum(cells: seq<Cell>, counts: seq<nat>, k: nat): Series
    requires |cells| == |counts| && k <= |cells|
  {
    if k == 0 then Zero
    else Plus(RaisedSum(cells, counts, k - 1), cells[k - 1].share, Product(cells, Raise(counts, k - 1)))
  }

  lemma {:induction false} ConvZero(t: Series, n: nat, k: nat)
    requires k <= n + 1
    ensures Conv(Times(Zero, t), n, k) == 0.0
  {
    if k > 0 {
      ConvZero(t, n, k - 1);
    }
  }

  /** Raising one of the first `k` counts commutes with multiplying by the last factor. */
  lemma {:induction false} RaisedTimes(cells: seq<Cell>, counts: seq<nat>, n: nat, k: nat)
    requires |cells| == |counts| && k < |cells|
    ensures var m := |cells| - 1;
            (Coef(Times(RaisedSum(cells[..m], counts[..m], k), Factor(cells[m], counts[m])), n)
             == Coef(RaisedSum(cells, counts, k), n))
  {
    var m := |cells| - 1;
    var t := Factor(cells[m], counts[m]);
    if k == 0 {
      ConvZero(t, n, n + 1);
    } else {
      RaisedTimes(cells, counts, n, k - 1);
      var raised := Raise(counts, k - 1);
      assert Raise(counts[..m], k - 1) == raised[..m];
      assert raised[m] == counts[m];
      ConvLinearLeft(RaisedSum(cells[..m], counts[..m], k - 1), cells[k - 1].share,
                     Product(cells[..m], raised[..m]), t, n, n + 1);
    }
  }

  /** Differentiating the last factor raises the last count. */
  lemma {:induction false} LastFactorDerivative(cells: seq<Cell>, counts: seq<nat>, n: nat)
    requires |cells| == |counts| && 0 < |cells|
    ensures var m := |cells| - 1;
            (Coef(Times(Product(cells[..m], counts[..m]), Derivative(Factor(cells[m], counts[m]))), n)
             == Mul(cells[m].share, Coef(Product(cells, Raise(counts, m)), n)))
  {
    var m := |cells| - 1;
    var raised := Raise(counts, m);
    assert raised[..m] == counts[..m];
    var c, cell := counts[m], cells[m];
    forall l: nat | l <= n
      ensures Coef(Derivative(Factor(cell, c)), l) == Mul(cell.share, Coef(Factor(cell, c + 1), l))
    {
      ExponentialDerivative(cell.curve, c, cell.share, l);
    }
    ConvScaleRight(Product(cells[..m], counts[..m]), Derivative(Factor(cell, c)), cell.share,
                   Factor(cell, c + 1), n, n + 1);
  }

  /** Differentiating the product of all cells raises one count at a time. */
  lemma {:induction false} ProductDerivative(cells: seq<Cell>, counts: seq<nat>, n: nat)
    requires |cells| == |counts|
    ensures Coef(Derivative(Product(cells, counts)), n) == Coef(RaisedSum(cells, counts, |cells|), n)
  {
    if |cells| > 0 {
      var m := |cells| - 1;
      var p, t := Product(cells[..m], counts[..m]), Factor(cells[m], counts[m]);
      Leibniz(p, t, n);
      var sum := RaisedSum(cells[..m], counts[..m], m);
      forall l: nat | l <= n
        ensures Coef(Derivative(p), l) == Coef(sum, l)
      {
        ProductDerivative(cells[..m], counts[..m], l);
      }
      ConvPointwise(Times(Derivative(p), t), Times(sum, t), n, n + 1);
      RaisedTimes(cells, counts, n, m);
      LastFactorDerivative(cells, counts, n);
    }
  }

  lemma {:induction false} ProductAtZero(cells: seq<Cell>, counts: seq<nat>)
    requires |cells| == |counts|
    ensures Coef(Product(cells, counts), 0) == AllSurvive(cells, counts)
  {
    if |cells| > 0 {
      var m := |cells| - 1;
      ProductAtZero(cells[..m], counts[..m]);
      var p, t := Product(cells[..m], counts[..m]), Factor(cells[m], counts[m]);
      assert Coef(t, 0) == At(cells[m].curve, counts[m]);
      assert Coef(Times(p, t), 0) == Conv(Times(p, t), 0, 0) + Mul(Coef(p, 0), Coef(t, 0));
    }
  }

  lemma {:induction false} ScaledRaisedSum(cells: seq<Cell>, counts: seq<nat>, n: nat, k: nat)
    requires |cells| == |counts| && k <= |cells|
    ensures Mul(Factorial(n) as real, Coef(RaisedSum(cells, counts, k), n)) == DrawOne(cells, counts, n + 1, k)
    decreases n, 1, k
  {
    if k > 0 {
      ScaledRaisedSum(cells, counts, n, k - 1);
      var raised := Raise(counts, k - 1);
      CoefficientIsProcess(cells, raised, n);
      var f, s, q := Factorial(n) as real, cells[k - 1].share, Coef(Product(cells, raised), n);
      hide Mul;
      MulAdd(f, Coef(RaisedSum(cells, counts, k - 1), n), Mul(s, q));
      MulShuffle(f, s, q);
    }
  }

  /** The scaled coefficient of the polynomial product is the probability that
      the draw-by-draw process assigns, from any starting counts. */
  lemma {:induction false} CoefficientIsProcess(cells: seq<Cell>, counts: seq<nat>, n: nat)
    requires |cells| == |counts|
    ensures Mul(Factorial(n) as real, Coef(Product(cells, counts), n)) == Process(cells, counts, n)
    decreases n, 0, 0
  {
    if n == 0 {
      ProductAtZero(cells, counts);
    } else {
      ProductDerivative(cells, counts, n - 1);
      ScaledRaisedSum(cells, counts, n - 1, |cells|);
      var f, q := Factorial(n - 1) as real, Coef(Product(cells, counts), n);
      assert Coef(Derivative(Product(cells, counts)), n - 1) == Mul(n as real, q);
      assert Factorial(n) as real == Mul(n as real, f);
      hide Mul;
      MulShuffle(n as real, f, q);
      MulShuffle(f, n as real, q);
    }
  }

  // ----- what holds of the process when shares and curves are probabilities -----

  function ShareSum(cells: seq<Cell>, k: nat): real
    requires k <= |cells|
  {
    if k == 0 then 0.0 else ShareSum(cells, k - 1) + cells[k - 1].share
  }

  ghost predicate Probabilities(cells: seq<Cell>) {
    && (forall i :: 0 <= i < |cells| ==> cells[i].share >= 0.0)
    && ShareSum(cells, |cells|) == 1.0
    && forall i :: 0 <= i < |cells| ==> UnitCurve(cells[i].curve)
  }

  ghost predicate UnitCurve(curve: seq<real>) {
    forall j :: 0 <= j < |curve| ==> 0.0 <= curve[j] <= 1.0
  }

  ghost predicate NonIncreasing(curve: seq<real>) {
    forall j :: 0 < j < |curve| ==> curve[j] <= curve[j - 1]
  }

  /** Same shares, and no curve of `high` lies below the matching curve of `low`. */
  ghost predicate Dominates(high: seq<Cell>, low: seq<Cell>) {
    && |high| == |low|
    && forall i :: 0 <= i < |low| ==>
         && high[i].share == low[i].share
         && forall j: nat :: At(low[i].curve, j) <= At(high[i].curve, j)
  }

  ghost predicate CurvesBounded(cells: seq<Cell>) {
    forall i :: 0 <= i < |cells| ==> UnitCurve(cells[i].curve)
  }

  lemma MulMonotone(x: real, y: real, x': real, y': real)
    requires 0.0 <= x <= x' && 0.0 <= y <= y'
    ensures 0.0 <= Mul(x, y) <= Mul(x', y')
  {
    assert x' * y' - x * y == x' * (y' - y) + (x' - x) * y;
  }

  lemma {:induction false} AllSurviveBounds(cells: seq<Cell>, counts: seq<nat>)
    requires |cells| == |counts| && CurvesBounded(cells)
    ensures 0.0 <= AllSurvive(cells, counts) <= 1.0
  {
    if |cells| > 0 {
      var m := |cells| - 1;
      AllSurviveBounds(cells[..m], counts[..m]);
      var x, y := AllSurvive(cells[..m], counts[..m]), At(cells[m].curve, counts[m]);
      MulMonotone(x, y, 1.0, 1.0);
      assert AllSurvive(cells, counts) == Mul(x, y);
    }
  }

  lemma {:induction false} AllSurviveFalls(cells: seq<Cell>, counts: seq<nat>, i: nat)
    requires |cells| == |counts| && CurvesBounded(cells) && i < |cells|
    requires forall i :: 0 <= i < |cells| ==> NonIncreasing(cells[i].curve)
    ensures AllSurvive(cells, Raise(counts, i)) <= AllSurvive(cells, counts)
  {
    var m, raised := |cells| - 1, Raise(counts, i);
    AllSurviveBounds(cells[..m], counts[..m]);
    AllSurviveBounds(cells[..m], raised[..m]);
    if i < m {
      AllSurviveFalls(cells[..m], counts[..m], i);
      assert Raise(counts[..m], i) == raised[..m];
    } else {
      assert raised[..m] == counts[..m];
    }
    MulMonotone(AllSurvive(cells[..m], raised[..m]), At(cells[m].curve, raised[m]),
                AllSurvive(cells[..m], counts[..m]), At(cells[m].curve, counts[m]));
  }

  lemma {:induction false} AllSurviveGrows(low: seq<Cell>, high: seq<Cell>, counts: seq<nat>)
    requires |low| == |counts| && Dominates(high, low) && CurvesBounded(low)
    ensures 0.0 <= AllSurvive(low, counts) <= AllSurvive(high, counts)
  {
    if |low| > 0 {
      var m := |low| - 1;
      AllSurviveGrows(low[..m], high[..m], counts[..m]);
      MulMonotone(AllSurvive(low[..m], counts[..m]), At(low[m].curve, counts[m]),
                  AllSurvive(high[..m], counts[..m]), At(high[m].curve, counts[m]));
    }
  }

  lemma {:induction false} DrawBounds(cells: seq<Cell>, counts: seq<nat>, n: nat, k: nat)
    requires |cells| == |counts| && Probabilities(cells) && n > 0 && k <= |cells|
    ensures 0.0 <= DrawOne(cells, counts, n, k) <= ShareSum(cells, k)
    decreases n, k
  {
    if k > 0 {
      DrawBounds(cells, counts, n, k - 1);
      ProcessBounds(cells, Raise(counts, k - 1), n - 1);
      var s, g := cells[k - 1].share, Process(cells, Raise(counts, k - 1), n - 1);
      MulMonotone(s, g, s, 1.0);
    }
  }

  /** The process value is itself a probability, so no clamp is needed. */
  lemma {:induction false} ProcessBounds(cells: seq<Cell>, counts: seq<nat>, n: nat)
    requires |cells| == |counts| && Probabilities(cells)
    ensures 0.0 <= Process(cells, counts, n) <= 1.0
    decreases n, |cells| + 1
  {
    if n == 0 {
      AllSurviveBounds(cells, counts);
    } else {
      DrawBounds(cells, counts, n, |cells|);
    }
  }

  lemma {:induction false} FirstDrawFalls(cells: seq<Cell>, counts: seq<nat>, k: nat)
    requires |cells| == |counts| && Probabilities(cells) && k <= |cells|
    requires forall i :: 0 <= i < |cells| ==> NonIncreasing(cells[i].curve)
    ensures DrawOne(cells, counts, 1, k) <= Mul(ShareSum(cells, k), AllSurvive(cells, counts))
  {
    if k > 0 {
      FirstDrawFalls(cells, counts, k - 1);
      AllSurviveFalls(cells, counts, k - 1);
      var s, a := cells[k - 1].share, AllSurvive(cells, counts);
      var b := AllSurvive(cells, Raise(counts, k - 1));
      AllSurviveBounds(cells, Raise(counts, k - 1));
      MulMonotone(s, b, s, a);
      MulAdd(a, ShareSum(cells, k - 1), s);
      assert Process(cells, Raise(counts, k - 1), 0) == b;
    }
  }

  lemma {:induction false} DrawFalls(cells: seq<Cell>, counts: seq<nat>, n: nat, k: nat)
    requires |cells| == |counts| && Probabilities(cells) && k <= |cells| && n > 0
    requires forall i :: 0 <= i < |cells| ==> NonIncreasing(cells[i].curve)
    ensures DrawOne(cells, counts, n + 1, k) <= DrawOne(cells, counts, n, k)
    decreases n, 0, k
  {
    if k > 0 {
      DrawFalls(cells, counts, n, k - 1);
      var s, raised := cells[k - 1].share, Raise(counts, k - 1);
      ProcessFalls(cells, raised, n - 1);
      ProcessBounds(cells, raised, n);
      MulMonotone(s, Process(cells, raised, n), s, Process(cells, raised, n - 1));
    }
  }

  /** One more request never raises the chance of having met no miss. */
  lemma {:induction false} ProcessFalls(cells: seq<Cell>, counts: seq<nat>, n: nat)
    requires |cells| == |counts| && Probabilities(cells)
    requires forall i :: 0 <= i < |cells| ==> NonIncreasing(cells[i].curve)
    ensures Process(cells, counts, n + 1) <= Process(cells, counts, n)
    decreases n, 1, 0
  {
    if n == 0 {
      FirstDrawFalls(cells, counts, |cells|);
    } else {
      DrawFalls(cells, counts, n, |cells|);
    }
  }

  lemma {:induction false} DrawGrows(low: seq<Cell>, high: seq<Cell>, counts: seq<nat>, n: nat, k: nat)
    requires |low| == |counts| && Probabilities(low) && Dominates(high, low) && k <= |low| && n > 0
    ensures DrawOne(low, counts, n, k) <= DrawOne(high, counts, n, k)
    decreases n, 0, k
  {
    if k > 0 {
      DrawGrows(low, high, counts, n, k - 1);
      var s, raised := low[k - 1].share, Raise(counts, k - 1);
      ProcessGrows(low, high, raised, n - 1);
      ProcessBounds(low, raised, n - 1);
      MulMonotone(s, Process(low, raised, n - 1), s, Process(high, raised, n - 1));
    }
  }

  /** Raising survival curves pointwise never lowers the band's survival. */
  lemma {:induction false} ProcessGrows(low: seq<Cell>, high: seq<Cell>, counts: seq<nat>, n: nat)
    requires |low| == |counts| && Probabilities(low) && Dominates(high, low)
    ensures Process(low, counts, n) <= Process(high, counts, n)
    decreases n, 1, 0
  {
    if n == 0 {
      AllSurviveGrows(low, high, counts);
    } else {
      DrawGrows(low, high, counts, n, |low|);
    }
  }

  // ----- the program -----

  datatype Error = LengthMismatch | CurveTooShort | NoHorizon
  datatype Result<T> = Ok(value: T) | Err(error: Error)

  function Cells(shares: seq<real>, survivals: seq<seq<real>>): (cells: seq<Cell>)
    requires |shares| == |survivals|
  {
    seq(|shares|, i requires 0 <= i < |shares| => Cell(shares[i], survivals[i]))
  }

  function NoRequests(k: nat): (counts: seq<nat>)
    ensures |counts| == k
  {
    seq(k, _ => 0)
  }

  function Clamp(x: real): real {
    var floored := if x > 0.0 then x else 0.0;
    if floored < 1.0 then floored else 1.0
  }

  /** The chance that a child meets no miss in their first `n` requests into the band. */
  function NoMiss(cells: seq<Cell>, n: nat): real {
    Process(cells, NoRequests(|cells|), n)
  }

  /** The curve over `0 .. horizon` requests, as the report prints it. */
  function BandCurve(cells: seq<Cell>, horizon: nat): (curve: seq<real>)
    ensures |curve| == horizon + 1
    ensures forall n :: 0 <= n <= horizon ==> curve[n] == Clamp(NoMiss(cells, n))
  {
    seq(horizon + 1, n requires 0 <= n <= horizon => Clamp(NoMiss(cells, n)))
  }

  /** The expected requests before the first miss: the curve's sum. */
  function RequestsBeforeMiss(survival: seq<real>): real {
    if |survival| == 0 then 0.0
    else RequestsBeforeMiss(survival[..|survival| - 1]) + survival[|survival| - 1]
  }

  /** With shares and curves that are probabilities the clamp never bites, a band
      that starts unmissed starts at one, and wearing cells give a wearing band. */
  lemma {:induction false} BandCurveIsProbability(cells: seq<Cell>, horizon: nat)
    requires Probabilities(cells)
    ensures forall n :: 0 <= n <= horizon ==> 0.0 <= NoMiss(cells, n) == BandCurve(cells, horizon)[n] <= 1.0
    ensures (forall i :: 0 <= i < |cells| ==> At(cells[i].curve, 0) == 1.0) ==> BandCurve(cells, horizon)[0] == 1.0
    ensures (forall i :: 0 <= i < |cells| ==> NonIncreasing(cells[i].curve)) ==> NonIncreasing(BandCurve(cells, horizon))
  {
    var zeros := NoRequests(|cells|);
    forall n: nat
      ensures 0.0 <= NoMiss(cells, n) == Clamp(NoMiss(cells, n)) <= 1.0
    {
      ProcessBounds(cells, zeros, n);
    }
    if forall i :: 0 <= i < |cells| ==> At(cells[i].curve, 0) == 1.0 {
      AllSurviveAtStart(cells);
    }
    if forall i :: 0 <= i < |cells| ==> NonIncreasing(cells[i].curve) {
      forall n | 0 < n <= horizon
        ensures NoMiss(cells, n) <= NoMiss(cells, n - 1)
      {
        ProcessFalls(cells, zeros, n - 1);
      }
    }
  }

  lemma {:induction false} AllSurviveAtStart(cells: seq<Cell>)
    requires forall i :: 0 <= i < |cells| ==> At(cells[i].curve, 0) == 1.0
    ensures AllSurvive(cells, NoRequests(|cells|)) == 1.0
  {
    if |cells| > 0 {
      var m := |cells| - 1;
      AllSurviveAtStart(cells[..m]);
      assert NoRequests(|cells|)[..m] == NoRequests(m);
    }
  }

  /** Raising curves pointwise lowers neither a band value nor the expected requests. */
  lemma {:induction false} RaisingCurvesHelps(low: seq<Cell>, high: seq<Cell>, horizon: nat)
    requires Probabilities(low) && Dominates(high, low)
    ensures forall n :: 0 <= n <= horizon ==> BandCurve(low, horizon)[n] <= BandCurve(high, horizon)[n]
    ensures RequestsBeforeMiss(BandCurve(low, horizon)) <= RequestsBeforeMiss(BandCurve(high, horizon))
  {
    forall n | 0 <= n <= horizon
      ensures BandCurve(low, horizon)[n] <= BandCurve(high, horizon)[n]
    {
      ProcessGrows(low, high, NoRequests(|low|), n);
    }
    SumMonotone(BandCurve(low, horizon), BandCurve(high, horizon));
  }

  lemma {:induction false} SumMonotone(low: seq<real>, high: seq<real>)
    requires |low| == |high| && forall n :: 0 <= n < |low| ==> low[n] <= high[n]
    ensures RequestsBeforeMiss(low) <= RequestsBeforeMiss(high)
  {
    if |low| > 0 {
      SumMonotone(low[..|low| - 1], high[..|low| - 1]);
    }
  }

  /** The chance mass of missing on request `n + 1`, weighted by the requests made. */
  function WeightedMisses(survival: seq<real>, k: nat): real
    requires k < |survival|
  {
    if k == 0 then 0.0
    else WeightedMisses(survival, k - 1) + k as real * (survival[k - 1] - survival[k])
  }

  /** Whatever the shares and curves, the reported value is the one of the unit interval that
      comes nearest to the process value. */
  lemma {:induction false} BandCurveIsNearest(cells: seq<Cell>, horizon: nat, n: nat, x: real)
    requires n <= horizon && 0.0 <= x <= 1.0
    ensures var reported, exact := BandCurve(cells, horizon)[n], NoMiss(cells, n);
            && 0.0 <= reported <= 1.0
            && (exact <= reported <= x || x <= reported <= exact || reported == exact)
  {
    hide NoMiss;
  }

  /** The sum is an expectation truncated at the horizon: a first miss on request
      `k` counts `k`, and a child still unmissed at the horizon counts its length. */
  lemma {:induction false} SumIsTruncatedExpectation(survival: seq<real>)
    requires |survival| > 0
    ensures RequestsBeforeMiss(survival)
         == WeightedMisses(survival, |survival| - 1) + |survival| as real * survival[|survival| - 1]
  {
    var k := |survival| - 1;
    if k > 0 {
      var shorter := survival[..k];
      SumIsTruncatedExpectation(shorter);
      WeightedMissesPrefix(survival, k, k - 1);
      Regroup(k, survival[k - 1], survival[k]);
    }
  }

  lemma Regroup(k: nat, before: real, last: real)
    ensures k as real * (before - last) + (k + 1) as real * last == k as real * before + last
  {
  }

  lemma {:induction false} WeightedMissesPrefix(survival: seq<real>, k: nat, j: nat)
    requires j < k <= |survival|
    ensures WeightedMisses(survival[..k], j) == WeightedMisses(survival, j)
  {
    if j > 0 {
      WeightedMissesPrefix(survival, k, j - 1);
    }
  }

  /** The in-place product of the running polynomial with one more cell's term,
      truncated after `x^horizon`. */
  method Convolve(product: seq<real>, term: seq<real>, horizon: nat, ghost p: Series, ghost t: Series)
    returns (convolved: seq<real>)
    requires |product| == |term| == horizon + 1
    requires forall i :: 0 <= i <= horizon ==> product[i] == Coef(p, i) && term[i] == Coef(t, i)
    ensures |convolved| == horizon + 1
    ensures forall i :: 0 <= i <= horizon ==> convolved[i] == Coef(Times(p, t), i)
  {
    hide Mul, Coef;
    ghost var pt := Times(p, t);
    convolved := seq(horizon + 1, _ => 0.0);
    for left := 0 to horizon + 1
      invariant |convolved| == horizon + 1
      invariant forall i :: 0 <= i < left ==> convolved[i] == Conv(pt, i, i + 1)
      invariant forall i :: left <= i <= horizon ==> convolved[i] == Conv(pt, i, left)
    {
      if product[left] == 0.0 {
        SkippedTerms(pt, left, horizon);
        continue;
      }
      for right := 0 to horizon + 1 - left
        invariant |convolved| == horizon + 1
        invariant forall i :: 0 <= i < left ==> convolved[i] == Conv(pt, i, i + 1)
        invariant forall i :: left <= i < left + right ==> convolved[i] == Conv(pt, i, left + 1)
        invariant forall i :: left + right <= i <= horizon ==> convolved[i] == Conv(pt, i, left)
      {
        assert left + right - left == right;
        convolved := convolved[left + right := convolved[left + right] + Mul(product[left], term[right])];
      }
    }
    forall i | 0 <= i <= horizon
      ensures convolved[i] == Coef(pt, i)
    {
      CoefIsConv(pt, i);
    }
  }

  lemma {:induction false} CoefIsConv(pt: Series, n: nat)
    requires pt.Times?
    ensures Coef(pt, n) == Conv(pt, n, n + 1)
  {
  }

  /** A zero coefficient contributes nothing, so its whole row may be skipped. */
  lemma {:induction false} SkippedTerms(pt: Series, left: nat, horizon: nat)
    requires pt.Times? && Coef(pt.left, left) == 0.0
    ensures forall i :: left <= i <= horizon ==> Conv(pt, i, left + 1) == Conv(pt, i, left)
  {
  }

  method ComposeCurves(shares: seq<real>, survivals: seq<seq<real>>, horizon: int)
    returns (r: Result<seq<real>>)
    ensures |shares| != |survivals| ==> r == Err(LengthMismatch)
    ensures |shares| == |survivals| && (exists curve :: curve in survivals && |curve| < horizon + 1)
            ==> r == Err(CurveTooShort)
    ensures |shares| == |survivals| && horizon < 0 ==> r == Err(NoHorizon)
    ensures |shares| == |survivals| && horizon >= 0 && (forall curve :: curve in survivals ==> |curve| >= horizon + 1)
            ==> r == Ok(BandCurve(Cells(shares, survivals), horizon))
  {
    if |shares| != |survivals| {
      return Err(LengthMismatch);
    }
    if exists curve :: curve in survivals && |curve| < horizon + 1 {
      return Err(CurveTooShort);
    }
    if horizon < 0 {
      return Err(NoHorizon);
    }
    ghost var cells := Cells(shares, survivals);
    ghost var zeros := NoRequests(|cells|);
    hide Coef, Process;
    var product := seq(horizon + 1, _ => 0.0)[0 := 1.0];
    UnitCoefficients(horizon);
    for k := 0 to |shares|
      invariant |product| == horizon + 1
      invariant forall i :: 0 <= i <= horizon ==> product[i] == Coef(Product(cells[..k], zeros[..k]), i)
    {
      assert survivals[k] in survivals;
      var term := TermOf(shares[k], survivals[k], horizon);
      product := Convolve(product, term, horizon, Product(cells[..k], zeros[..k]), Factor(cells[k], 0));
      assert cells[..k + 1][..k] == cells[..k] && zeros[..k + 1][..k] == zeros[..k];
    }
    assert cells[..|cells|] == cells && zeros[..|cells|] == zeros;
    forall n | 0 <= n <= horizon
      ensures Mul(Factorial(n) as real, product[n]) == NoMiss(cells, n)
    {
      CoefficientIsProcess(cells, zeros, n);
    }
    var curve := seq(horizon + 1, n requires 0 <= n <= horizon => Clamp(Mul(Factorial(n) as real, product[n])));
    assert curve == BandCurve(cells, horizon);
    r := Ok(curve);
  }

  lemma UnitCoefficients(horizon: nat)
    ensures forall i :: 0 <= i <= horizon ==> Coef(Unit, i) == if i == 0 then 1.0 else 0.0
  {
  }

  /** One cell's polynomial, truncated after `x^horizon`. */
  function TermOf(share: real, curve: seq<real>, horizon: nat): (term: seq<real>)
    requires |curve| >= horizon + 1
    ensures |term| == horizon + 1
    ensures forall i :: 0 <= i <= horizon ==> term[i] == Coef(Factor(Cell(share, curve), 0), i)
  {
    seq(horizon + 1, i requires 0 <= i <= horizon => ExpCoef(curve, 0, share, i))
  }
}
