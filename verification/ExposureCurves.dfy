/** What the exposure simulations report, and what is built on the reports: the cell a
    demand draw selects, the survival curve of one cell, and the smallest sufficient pool. */
module ExposureCurves {

  import opened Collections
  import opened Exposure
  import BandSurvival
  import Digits

  datatype Error = EmptyPool | NoDemand | BadCounts
  datatype Result<T> = Ok(value: T) | Err(error: Error)

  // ----- drawing a cell from the demand shares -----

  function Cumulative(shares: seq<real>, n: nat): real
    requires n <= |shares|
  {
    if n == 0 then 0.0 else Cumulative(shares, n - 1) + shares[n - 1]
  }

  /** The first index whose running total passes the draw; `|shares|` if none does. */
  function FirstPast(shares: seq<real>, draw: real, n: nat): (index: nat)
    requires n <= |shares|
    ensures index <= n
    ensures forall i :: 0 < i <= index ==> Cumulative(shares, i) <= draw
    ensures index < n ==> draw < Cumulative(shares, index + 1)
  {
    if n == 0 then 0
    else
      var before := FirstPast(shares, draw, n - 1);
      if before < n - 1 then before
      else if draw < Cumulative(shares, n) then n - 1 else n
  }

  /** The last of the first `n` cells that anybody asks for. */
  function LastWanted(shares: seq<real>, n: nat): (index: nat)
    requires n <= |shares|
    ensures index < n || index == 0
    ensures forall i :: index < i < n ==> shares[i] <= 0.0
    ensures (exists i :: 0 <= i < n && shares[i] > 0.0) ==> index < n && shares[index] > 0.0
  {
    if n == 0 then 0 else if shares[n - 1] > 0.0 then n - 1 else LastWanted(shares, n - 1)
  }

  function Picked(shares: seq<real>, draw: real): (index: nat)
    ensures |shares| > 0 ==> index < |shares|
  {
    var first := FirstPast(shares, draw, |shares|);
    if first < |shares| then first else LastWanted(shares, |shares|)
  }

  method PickIndex(shares: seq<real>, draw: real) returns (index: nat)
    ensures index == Picked(shares, draw)
  {
    var cumulative := 0.0;
    var last := 0;
    for i := 0 to |shares|
      invariant cumulative == Cumulative(shares, i)
      invariant FirstPast(shares, draw, i) == i && last == LastWanted(shares, i)
    {
      if shares[i] > 0.0 {
        last := i;
      }
      cumulative := cumulative + shares[i];
      if draw < cumulative {
        FirstPastStays(shares, draw, i, |shares|);
        return i;
      }
    }
    return last;
  }

  lemma {:induction false} FirstPastStays(shares: seq<real>, draw: real, i: nat, n: nat)
    requires i < n <= |shares| && FirstPast(shares, draw, i + 1) == i
    ensures FirstPast(shares, draw, n) == i
  {
    if n > i + 1 {
      FirstPastStays(shares, draw, i, n - 1);
    }
  }

  lemma {:induction false} CumulativeRises(shares: seq<real>, i: nat, n: nat)
    requires i <= n <= |shares| && forall k :: 0 <= k < |shares| ==> shares[k] >= 0.0
    ensures Cumulative(shares, i) <= Cumulative(shares, n)
  {
    if i < n {
      CumulativeRises(shares, i, n - 1);
    }
  }

  /** A draw within the total selects exactly the cell whose stretch of the unit interval,
      as long as its share, the draw falls in; so a cell without demand is never drawn. */
  lemma {:induction false} DrawSelectsItsStretch(shares: seq<real>, draw: real, index: nat)
    requires forall k :: 0 <= k < |shares| ==> shares[k] >= 0.0
    requires 0.0 <= draw < Cumulative(shares, |shares|) && index < |shares|
    ensures Picked(shares, draw) == index
       <==> Cumulative(shares, index) <= draw < Cumulative(shares, index) + shares[index]
    ensures Picked(shares, draw) == index ==> shares[index] > 0.0
  {
    var first := FirstPast(shares, draw, |shares|);
    assert first < |shares| && first == Picked(shares, draw);
    if first < index {
      CumulativeRises(shares, first + 1, index);
    } else if index < first {
      assert Cumulative(shares, index + 1) <= draw;
    } else {
      assert Cumulative(shares, index + 1) == Cumulative(shares, index) + shares[index];
    }
  }

  // ----- the reported curve -----

  /** A total as a rate over the readers observed. */
  function Rate(total: nat, observations: nat): real
    requires observations > 0
  {
    total as real / observations as real
  }

  datatype Curve = Curve(
    repeats: seq<real>,
    distinct: seq<real>,
    unservable: seq<real>,
    crossing: Option<nat>)

  /** The readers observed in `trials` families. */
  function Observed(s: Setup, trials: nat): (n: nat)
    requires ValidSetup(s) && trials > 0
    ensures n > 0
  {
    OffsetPositive(trials, s.children);
    Offset(trials, s.children)
  }

  lemma OffsetPositive(index: nat, children: nat)
    requires index > 0 && children > 0
    ensures Offset(index, children) > 0
  {
  }

  /** The estimated chance of having met a repeat by request `i + 1`. */
  ghost function RepeatRate(s: Setup, trials: nat, requests: nat, i: nat): real
    requires ValidSetup(s) && trials > 0
  {
    Rate(RepeatTotal(s, requests, trials, i), Observed(s, trials))
  }

  ghost predicate Reports(s: Setup, trials: nat, requests: nat, c: Curve)
    requires ValidSetup(s) && trials > 0
  {
    && |c.repeats| == |c.distinct| == |c.unservable| == requests
    && (forall i :: 0 <= i < requests ==> c.repeats[i] == RepeatRate(s, trials, requests, i))
    && (forall i :: 0 <= i < requests ==> c.distinct[i] == Rate(DistinctTotal(s, requests, trials, i), Observed(s, trials)))
    && (forall i :: 0 <= i < requests ==> c.unservable[i] == Rate(UnservedTotal(s, requests, trials, i), Observed(s, trials)))
    && FirstLikely(c.repeats, c.crossing)
  }

  /** `crossing` is the first request whose repeat is at least as likely as not. */
  predicate FirstLikely(repeats: seq<real>, crossing: Option<nat>) {
    match crossing
    case None => forall i :: 0 <= i < |repeats| ==> repeats[i] < 0.5
    case Some(n) =>
      1 <= n <= |repeats| && repeats[n - 1] >= 0.5 && forall i :: 0 <= i < n - 1 ==> repeats[i] < 0.5
  }

  method FindCrossing(repeats: seq<real>) returns (crossing: Option<nat>)
    ensures FirstLikely(repeats, crossing)
  {
    for index := 0 to |repeats|
      invariant forall i :: 0 <= i < index ==> repeats[i] < 0.5
    {
      if repeats[index] >= 0.5 {
        return Some(index + 1);
      }
    }
    return None;
  }

  /** Runs a simulation and reports its rates. */
  method Estimate(s: Setup, trials: nat, requests: nat) returns (c: Curve)
    requires ValidSetup(s) && trials > 0
    ensures Reports(s, trials, requests, c)
  {
    hide Rate, Observed, RepeatTotal, DistinctTotal, UnservedTotal, ValidSetup;
    var tallies := Simulate(s, trials, requests);
    var n := Observed(s, trials);
    var repeats := seq(requests, i requires 0 <= i < requests => Rate(tallies[i].repeats, n));
    var distinct := seq(requests, i requires 0 <= i < requests => Rate(tallies[i].distinct, n));
    var unservable := seq(requests, i requires 0 <= i < requests => Rate(tallies[i].unserved, n));
    var crossing := FindCrossing(repeats);
    c := Curve(repeats, distinct, unservable, crossing);
  }

  /** One pool, `children` readers: the selector is any that picks from the pool. */
  method SimulateExposure(candidates: seq<string>, select: (nat, multiset<string>) -> string,
      trials: int, requests: int, children: int, familyScope: bool)
    returns (r: Result<Curve>)
    requires candidates != [] ==> forall k: nat, u :: select(k, u) in candidates
    ensures candidates == [] ==> r == Err(EmptyPool)
    ensures candidates != [] && (trials < 1 || requests < 1 || children < 1) ==> r == Err(BadCounts)
    ensures candidates != [] && trials >= 1 && requests >= 1 && children >= 1 ==>
              && r.Ok? && ValidSetup(OnePool(candidates, select, children, familyScope))
              && Reports(OnePool(candidates, select, children, familyScope), trials, requests, r.value)
  {
    if candidates == [] {
      return Err(EmptyPool);
    }
    if trials < 1 || requests < 1 || children < 1 {
      return Err(BadCounts);
    }
    var s := OnePool(candidates, select, children, familyScope);
    assert ValidSetup(s);
    hide ValidSetup, Reports, OnePool;
    var c := Estimate(s, trials, requests);
    r := Ok(c);
  }

  function OnePool(candidates: seq<string>, select: (nat, multiset<string>) -> string, children: nat, familyScope: bool): Setup {
    Setup([candidates], _ => 0, select, children, familyScope)
  }

  /** A cell of a band: its share of the demand and the slugs it holds. */
  datatype DemandCell = DemandCell(share: real, slugs: seq<string>)

  function Shares(demand: seq<DemandCell>): (shares: seq<real>)
    ensures |shares| == |demand|
  {
    seq(|demand|, i requires 0 <= i < |demand| => demand[i].share)
  }

  /** A whole band: every call draws its cell by the shares. */
  function Band(demand: seq<DemandCell>, draws: nat -> real, select: (nat, multiset<string>) -> string,
      children: nat, familyScope: bool): Setup
  {
    Setup(seq(|demand|, i requires 0 <= i < |demand| => demand[i].slugs),
          k => Picked(Shares(demand), draws(k)), select, children, familyScope)
  }

  lemma {:induction false} BandIsValid(demand: seq<DemandCell>, draws: nat -> real, select: (nat, multiset<string>) -> string,
      children: nat, familyScope: bool)
    requires |demand| > 0 && children >= 1
    requires forall k: nat, u ::
      var pool := demand[Picked(Shares(demand), draws(k))].slugs; pool != [] ==> select(k, u) in pool
    ensures ValidSetup(Band(demand, draws, select, children, familyScope))
  {
    var s := Band(demand, draws, select, children, familyScope);
    hide Picked;
    forall k: nat
      ensures s.cell(k) < |s.pools|
    {
      assert s.cell(k) == Picked(Shares(demand), draws(k));
    }
    forall k: nat, u: multiset<string> | s.pools[s.cell(k)] != []
      ensures s.select(k, u) in s.pools[s.cell(k)]
    {
      var i := Picked(Shares(demand), draws(k));
      assert s.cell(k) == i && s.pools[i] == demand[i].slugs;
    }
  }

  predicate Wanted(c: DemandCell) {
    c.share > 0.0
  }

  /** Demand per book of a cell that holds any. */
  function Pressure(c: DemandCell): real
    requires c.slugs != []
  {
    c.share / |c.slugs| as real
  }

  /** `a` exhausts before `b` does; an empty cell before any other. */
  predicate Tighter(a: DemandCell, b: DemandCell) {
    b.slugs != [] && (a.slugs == [] || Pressure(a) > Pressure(b))
  }

  /** Cell `best` of the first `n` is wanted, none is tighter, and any earlier one is less tight. */
  predicate Tightest(demand: seq<DemandCell>, best: nat, n: nat)
    requires n <= |demand|
  {
    && best < n && Wanted(demand[best])
    && (forall j :: 0 <= j < n && Wanted(demand[j]) ==> !Tighter(demand[j], demand[best]))
    && (forall j :: 0 <= j < best && Wanted(demand[j]) ==> Tighter(demand[best], demand[j]))
  }

  predicate BindingAmong(demand: seq<DemandCell>, best: Option<nat>, n: nat)
    requires n <= |demand|
  {
    match best
    case None => forall j :: 0 <= j < n ==> !Wanted(demand[j])
    case Some(i) => Tightest(demand, i, n)
  }

  /** The cell that binds: the first of the most demand per book. */
  method BindingCell(demand: seq<DemandCell>) returns (best: Option<nat>)
    ensures BindingAmong(demand, best, |demand|)
  {
    hide Pressure;
    best := None;
    for n := 0 to |demand|
      invariant BindingAmong(demand, best, n)
    {
      if Wanted(demand[n]) && (best.None? || Tighter(demand[n], demand[best.value])) {
        best := Some(n);
      }
    }
  }

  /** `a` has more demand per book than `b`, cross-multiplied. */
  predicate Outweighs(a: DemandCell, b: DemandCell) {
    a.share * |b.slugs| as real > b.share * |a.slugs| as real
  }

  lemma QuotientsCompare(x: real, m: real, y: real, n: real)
    requires m > 0.0 && n > 0.0
    ensures x / m > y / n <==> x * n > y * m
  {
    var p, q := x / m, y / n;
    assert p * m == x && q * n == y;
    assert x * n == p * (m * n) && y * m == q * (m * n);
    if p > q {
      ProductRises(p - q, m * n);
    } else if p < q {
      ProductRises(q - p, m * n);
    }
  }

  lemma ProductRises(x: real, y: real)
    requires x > 0.0 && y > 0.0
    ensures x * y > 0.0
  {
  }

  lemma {:induction false} TighterOutweighs(a: DemandCell, b: DemandCell)
    requires a.share > 0.0 && b.share > 0.0
    ensures Tighter(a, b) <==> Outweighs(a, b)
  {
    if a.slugs != [] && b.slugs != [] {
      QuotientsCompare(a.share, |a.slugs| as real, b.share, |b.slugs| as real);
    } else if b.slugs != [] {
      ProductRises(a.share, |b.slugs| as real);
    } else if a.slugs != [] {
      ProductRises(b.share, |a.slugs| as real);
    }
  }

  /** The binding cell by its figures: demanded, outweighed per book by no demanded cell, and
      outweighing every earlier one; none binds exactly when nothing is demanded. */
  lemma {:induction false} BindingByFigures(demand: seq<DemandCell>, best: Option<nat>)
    ensures BindingAmong(demand, best, |demand|)
       <==> match best
            case None => forall cell :: cell in demand ==> cell.share <= 0.0
            case Some(i) =>
              && i < |demand| && demand[i].share > 0.0
              && (forall j :: 0 <= j < |demand| && demand[j].share > 0.0 ==> !Outweighs(demand[j], demand[i]))
              && forall j :: 0 <= j < i && demand[j].share > 0.0 ==> Outweighs(demand[i], demand[j])
  {
    if best.Some? && best.value < |demand| && demand[best.value].share > 0.0 {
      forall j | 0 <= j < |demand| && demand[j].share > 0.0
        ensures Tighter(demand[j], demand[best.value]) <==> Outweighs(demand[j], demand[best.value])
        ensures Tighter(demand[best.value], demand[j]) <==> Outweighs(demand[best.value], demand[j])
      {
        TighterOutweighs(demand[j], demand[best.value]);
        TighterOutweighs(demand[best.value], demand[j]);
      }
    }
    hide Tighter, Outweighs;
  }

  lemma {:induction false} SomebodyAsks(shares: seq<real>, n: nat)
    requires n <= |shares| && Cumulative(shares, n) > 0.0
    ensures exists i :: 0 <= i < n && shares[i] > 0.0
  {
    if shares[n - 1] <= 0.0 {
      SomebodyAsks(shares, n - 1);
    }
  }

  /** The curve of a whole band and the cell that binds it. */
  datatype BandCurve = BandCurve(curve: Curve, binding: Option<nat>)

  method SimulateBand(demand: seq<DemandCell>, draws: nat -> real, select: (nat, multiset<string>) -> string,
      trials: int, requests: int, children: int, familyScope: bool)
    returns (r: Result<BandCurve>)
    requires |demand| > 0 ==> forall k: nat, u ::
      var pool := demand[Picked(Shares(demand), draws(k))].slugs; pool != [] ==> select(k, u) in pool
    ensures demand == [] || Cumulative(Shares(demand), |demand|) <= 0.0 ==> r == Err(NoDemand)
    ensures demand != [] && Cumulative(Shares(demand), |demand|) > 0.0 ==>
              if trials < 1 || requests < 1 || children < 1 then r == Err(BadCounts)
              else
                && r.Ok? && ValidSetup(Band(demand, draws, select, children, familyScope))
                && Reports(Band(demand, draws, select, children, familyScope), trials, requests, r.value.curve)
                && r.value.binding.Some? && Tightest(demand, r.value.binding.value, |demand|)
  {
    if demand == [] || Cumulative(Shares(demand), |demand|) <= 0.0 {
      return Err(NoDemand);
    }
    if trials < 1 || requests < 1 || children < 1 {
      return Err(BadCounts);
    }
    var s := Band(demand, draws, select, children, familyScope);
    BandIsValid(demand, draws, select, children, familyScope);
    SomebodyAsks(Shares(demand), |demand|);
    hide ValidSetup, Reports, Band, Tightest;
    var c := Estimate(s, trials, requests);
    var binding := BindingCell(demand);
    assert binding.Some? by {
      var i :| 0 <= i < |demand| && Shares(demand)[i] > 0.0;
      assert Wanted(demand[i]);
    }
    r := Ok(BandCurve(c, binding));
  }

  lemma RateTimes(a: nat, n: nat)
    requires n > 0
    ensures Rate(a, n) * n as real == a as real
  {
  }

  lemma RateRises(a: nat, b: nat, n: nat)
    requires n > 0 && a <= b
    ensures Rate(a, n) <= Rate(b, n)
  {
    hide Rate;
    RateTimes(a, n);
    RateTimes(b, n);
    if Rate(a, n) > Rate(b, n) {
      ScaleMono(Rate(b, n), Rate(a, n), n as real);
    }
  }

  lemma RateRange(a: nat, n: nat)
    requires n > 0 && a <= n
    ensures Rate(0, n) == 0.0 <= Rate(a, n) <= 1.0 == Rate(n, n)
  {
    RateRises(0, a, n);
    RateRises(a, n, n);
  }

  lemma ScaleMono(x: real, y: real, m: real)
    requires x < y && m > 0.0
    ensures x * m < y * m
  {
  }

  lemma {:induction false} RepeatRateShape(s: Setup, trials: nat, requests: nat, i: nat)
    requires ValidSetup(s) && trials > 0
    ensures 0.0 <= RepeatRate(s, trials, requests, i) <= RepeatRate(s, trials, requests, i + 1) <= 1.0
  {
    hide Rate, RepeatTotal, Offset, ValidSetup;
    RepeatsRise(s, requests, trials, i);
    RepeatsRise(s, requests, trials, i + 1);
    var now, next, n := RepeatTotal(s, requests, trials, i), RepeatTotal(s, requests, trials, i + 1), Observed(s, trials);
    RateRises(now, next, n);
    RateRange(now, n);
    RateRange(next, n);
  }

  lemma {:induction false} RepeatRateRises(s: Setup, trials: nat, requests: nat, i: nat, j: nat)
    requires ValidSetup(s) && trials > 0 && i <= j
    ensures RepeatRate(s, trials, requests, i) <= RepeatRate(s, trials, requests, j)
    decreases j
  {
    hide RepeatRate, ValidSetup;
    if i < j {
      RepeatRateRises(s, trials, requests, i, j - 1);
      RepeatRateShape(s, trials, requests, j - 1);
    }
  }

  /** A reported curve is a rising probability, so from the crossing on a repeat stays
      at least as likely as not and before it never was. */
  lemma {:induction false} CurveShape(s: Setup, trials: nat, requests: nat, c: Curve)
    requires ValidSetup(s) && trials > 0 && Reports(s, trials, requests, c)
    ensures forall i :: 0 <= i < requests ==> 0.0 <= c.repeats[i] <= 1.0
    ensures forall i, j :: 0 <= i <= j < requests ==> c.repeats[i] <= c.repeats[j]
    ensures forall i :: 0 <= i < requests ==> (c.repeats[i] >= 0.5 <==> c.crossing.Some? && i + 1 >= c.crossing.value)
  {
    hide RepeatRate, ValidSetup;
    forall i | 0 <= i < requests
      ensures 0.0 <= c.repeats[i] <= 1.0
    {
      RepeatRateShape(s, trials, requests, i);
    }
    forall i, j | 0 <= i <= j < requests
      ensures c.repeats[i] <= c.repeats[j]
    {
      RepeatRateRises(s, trials, requests, i, j);
    }
  }

  // ----- one cell's survival curve -----

  /** The placeholder slugs a pool is padded with. */
  function Synthetic(index: nat): string {
    "synthetic-" + Digits.Pad(Digits.Decimal(index), 3)
  }

  lemma SyntheticDistinct(i: nat, j: nat)
    requires Synthetic(i) == Synthetic(j)
    ensures i == j
  {
    var a, b := Digits.Pad(Digits.Decimal(i), 3), Digits.Pad(Digits.Decimal(j), 3);
    assert Synthetic(i)[10..] == a && Synthetic(j)[10..] == b;
    Digits.PaddedInjective(i, j, 3);
  }

  /** `base` grown to `size`; a pool cannot shrink. */
  function PadPool(base: seq<string>, size: nat): (pool: seq<string>)
    requires |base| <= size
    ensures |pool| == size && base <= pool
    ensures forall i :: |base| <= i < size ==> pool[i] == Synthetic(i - |base|)
  {
    base + seq(size - |base|, i requires i >= 0 => Synthetic(i))
  }

  /** A padded pool really has `size` different books, when the real ones differ and none
      carries a placeholder name. */
  lemma {:induction false} PaddedPoolIsFull(base: seq<string>, size: nat)
    requires |base| <= size && !HasRepeat(base)
    requires forall i: nat :: Synthetic(i) !in base
    ensures !HasRepeat(PadPool(base, size)) && |Seen(PadPool(base, size))| == size
  {
    hide Synthetic;
    var pool := PadPool(base, size);
    forall i, j | 0 <= i < j < size
      ensures pool[i] != pool[j]
    {
      if j < |base| {
        assert pool[i] == base[i] && pool[j] == base[j];
      } else if i >= |base| {
        if pool[i] == pool[j] {
          SyntheticDistinct(i - |base|, j - |base|);
        }
      } else {
        assert pool[i] == base[i] && base[i] in base;
      }
    }
    RepeatIffFewerSeen(pool);
  }

  /** The chance of no miss within `j` requests into a cell of `size` books, for one reader. */
  method CellSurvival(size: int, horizon: int, trials: int, select: (nat, multiset<string>) -> string)
    returns (r: Result<seq<real>>)
    requires size >= 1 ==> forall k: nat, u :: select(k, u) in PadPool([], size)
    ensures size < 1 ==> r.Ok? && r.value == [1.0] + seq(if horizon > 0 then horizon else 0, _ => 0.0)
    ensures size >= 1 && (trials < 1 || horizon < 1) ==> r == Err(BadCounts)
    ensures size >= 1 && trials >= 1 && horizon >= 1 ==>
              var s := OnePool(PadPool([], size), select, 1, true);
              && r.Ok? && |r.value| == horizon + 1 && ValidSetup(s) && r.value[0] == 1.0
              && forall j :: 0 < j <= horizon ==> r.value[j] == 1.0 - RepeatRate(s, trials, horizon, j - 1)
    ensures r.Ok? ==> r.value[0] == 1.0 && BandSurvival.UnitCurve(r.value) && BandSurvival.NonIncreasing(r.value)
  {
    if size < 1 {
      return Ok([1.0] + seq(if horizon > 0 then horizon else 0, _ => 0.0));
    }
    var estimate := SimulateExposure(PadPool([], size), select, trials, horizon, 1, true);
    match estimate
    case Err(e) =>
      r := Err(e);
    case Ok(curve) =>
      ghost var s := OnePool(PadPool([], size), select, 1, true);
      hide RepeatRate, OnePool, ValidSetup;
      var complements := seq(horizon, i requires 0 <= i < horizon => 1.0 - curve.repeats[i]);
      r := Ok([1.0] + complements);
      CurveShape(s, trials, horizon, curve);
      Complements(curve.repeats, r.value);
  }

  lemma {:induction false} Complements(repeats: seq<real>, survival: seq<real>)
    requires |survival| == |repeats| + 1 && survival[0] == 1.0
    requires forall j :: 0 < j <= |repeats| ==> survival[j] == 1.0 - repeats[j - 1]
    requires forall i :: 0 <= i < |repeats| ==> 0.0 <= repeats[i] <= 1.0
    requires forall i, j :: 0 <= i <= j < |repeats| ==> repeats[i] <= repeats[j]
    ensures BandSurvival.UnitCurve(survival) && BandSurvival.NonIncreasing(survival)
  {
    forall j | 0 < j < |survival|
      ensures survival[j] <= survival[j - 1]
    {
      if j > 1 {
        assert repeats[j - 2] <= repeats[j - 1];
      }
    }
  }

  /** Under the reuse cap, pool size and not luck sets one reader's horizon: no chance of
      a repeat within the first `min(M, 21)` requests and a certain one after `M`. */
  lemma {:induction false} CapMakesRatesExact(s: Setup, trials: nat, requests: nat, i: nat)
    requires OneReader(s) && trials > 0
    ensures ValidSetup(s)
    ensures i < |Seen(s.pools[0])| && i <= RECENT_WINDOW ==> RepeatRate(s, trials, requests, i) == 0.0
    ensures i >= |Seen(s.pools[0])| ==> RepeatRate(s, trials, requests, i) == 1.0
  {
    hide Seen, Rate, HonoursCap, RepeatTotal;
    ExactHorizon(s, requests, trials, i);
    OnlyReader(trials);
    RateRange(trials, trials);
  }

  // ----- the smallest sufficient pool -----

  const MAX_SYNTHETIC_POOL := 600

  /** The acceptance test of the search: a repeat by the last request is less likely than not. */
  ghost predicate Sufficient(s: Setup, trials: nat, target: nat)
    requires ValidSetup(s) && trials > 0 && target > 0
  {
    RepeatRate(s, trials, target, target - 1) < 0.5
  }

  /** Pigeonhole: a pool of fewer books than requests fails for any selector and any number
      of readers, so the search may start at the target. */
  lemma {:induction false} SmallPoolFails(s: Setup, trials: nat, target: nat)
    requires OneCell(s) && trials > 0 && |Seen(s.pools[0])| < target
    ensures ValidSetup(s) && !Sufficient(s, trials, target)
  {
    hide Seen, Rate, Offset, RepeatTotal;
    CertainPastThePool(s, target, trials, target - 1);
    var n := Observed(s, trials);
    RateRange(n, n);
  }

  /** The bound is tight for one reader whose reading fits the window and one request more. */
  lemma {:induction false} TightForOneReader(s: Setup, trials: nat, target: nat)
    requires OneReader(s) && trials > 0 && 0 < target <= RECENT_WINDOW + 1
    ensures ValidSetup(s) && (Sufficient(s, trials, target) <==> |Seen(s.pools[0])| >= target)
  {
    hide Seen, HonoursCap, RepeatRate;
    CapMakesRatesExact(s, trials, target, target - 1);
  }

  function LargestTried(low: nat): nat {
    if low > MAX_SYNTHETIC_POOL then low else MAX_SYNTHETIC_POOL
  }

  function Least(a: int, b: int): int {
    if a < b then a else b
  }

  function Greatest(a: int, b: int): int {
    if a < b then b else a
  }

  /** The sizes tried on the way up: the starting one doubled so many times, at most 600. */
  function Rung(low: nat, k: nat): nat {
    if k == 0 then low else Least(2 * Rung(low, k - 1), 600)
  }

  ghost predicate FirstRung(sufficient: nat -> bool, low: nat, k: nat) {
    sufficient(Rung(low, k)) && forall j :: 0 <= j < k ==> !sufficient(Rung(low, j))
  }

  lemma {:induction false} TopRung(low: nat, k: nat, m: nat)
    requires k <= m && Rung(low, k) == 600
    ensures Rung(low, m) == 600
  {
    if k < m {
      TopRung(low, k, m - 1);
    }
  }

  predicate UpwardClosed(sufficient: nat -> bool, low: nat, high: nat) {
    forall a, b :: low <= a <= b <= high && sufficient(a) ==> sufficient(b)
  }

  /** Doubles until a size suffices, then bisects. `sufficient` is the acceptance test at a
      size. Without any monotonicity the answer suffices and its predecessor was rejected;
      with it, the answer is the least sufficient size from the starting point on. */
  method RequiredPoolSize(baseSize: nat, target: int, trials: int, sufficient: nat -> bool)
    returns (r: Result<Option<nat>>)
    ensures r == Err(BadCounts) <==> target < 1 || trials < 1
    ensures r.Ok? && r.value.Some? ==>
              var low, size := Greatest(baseSize, target), r.value.value;
              && sufficient(size) && low <= size <= LargestTried(low)
              && (size > low ==> !sufficient(size - 1) && !sufficient(low))
    ensures r.Ok? && r.value.None? ==>
              var low := Greatest(baseSize, target); !sufficient(low) && !sufficient(LargestTried(low))
    ensures target >= 1 && sufficient(Greatest(baseSize, target)) && trials >= 1 ==> r == Ok(Some(Greatest(baseSize, target)))
    ensures var low := Greatest(baseSize, target);
            r.Ok? && UpwardClosed(sufficient, low, LargestTried(low)) ==>
              && (r.value.Some? ==> forall m :: low <= m < r.value.value ==> !sufficient(m))
              && (r.value.None? ==> forall m :: low <= m <= LargestTried(low) ==> !sufficient(m))
    ensures r.Err? ==> r == Err(BadCounts)
    ensures r.Ok? && r.value.Some? ==>
              var low := Greatest(baseSize, target);
              r.value.value > low ==> exists k :: FirstRung(sufficient, low, k) && r.value.value <= Rung(low, k)
    ensures r.Ok? && r.value.None? ==>
              var low := Greatest(baseSize, target);
              low <= 600 ==> forall k :: !sufficient(Rung(low, k))
    ensures r.Ok? ==>
              (r.value.Some? && r.value.value > MAX_SYNTHETIC_POOL
               <==> Greatest(baseSize, target) > MAX_SYNTHETIC_POOL && sufficient(Greatest(baseSize, target)))
  {
    if target < 1 || trials < 1 {
      return Err(BadCounts);
    }
    var low: nat := Greatest(baseSize, target);
    if sufficient(low) {
      return Ok(Some(low));
    }
    ghost var start := low;
    var high := low;
    var found := false;
    ghost var k := 0;
    while high < MAX_SYNTHETIC_POOL && !found
      invariant start == low <= high <= LargestTried(start)
      invariant high == Rung(start, k) && forall j :: 0 <= j < k ==> !sufficient(Rung(start, j))
      invariant found <==> sufficient(high)
      decreases !found, MAX_SYNTHETIC_POOL - high
    {
      high := Least(high * 2, MAX_SYNTHETIC_POOL);
      k := k + 1;
      found := sufficient(high);
    }
    if !found {
      forall m: nat | start <= 600
        ensures !sufficient(Rung(start, m))
      {
        if k <= m {
          TopRung(start, k, m);
        }
      }
      return Ok(None);
    }
    assert FirstRung(sufficient, start, k);
    while high - low > 1
      invariant start <= low < high <= LargestTried(start) && high <= Rung(start, k)
      invariant sufficient(high) && !sufficient(low) && !sufficient(start)
    {
      var middle := (low + high) / 2;
      if sufficient(middle) {
        high := middle;
      } else {
        low := middle;
      }
    }
    return Ok(Some(high));
  }
}
