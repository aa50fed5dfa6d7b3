/** Splitting a fixed authoring budget over a band's length tiers: the allocations that
    are tried, the score of each, and the best of them. */
module BudgetSplit {

  import opened Division
  import opened PowerSeries
  import opened BandSurvival

  function Sum(a: seq<nat>): nat {
    if a == [] then 0 else a[0] + Sum(a[1..])
  }

  lemma {:induction false} SumConcat(a: seq<nat>, b: seq<nat>)
    ensures Sum(a + b) == Sum(a) + Sum(b)
  {
    if a == [] {
      assert a + b == b;
    } else {
      SumConcat(a[1..], b);
      assert (a + b)[1..] == a[1..] + b;
    }
  }

  // ----- the even split -----

  /** `parts` shares of `base`, the first `extra` of them one larger. */
  function Spread(base: nat, extra: nat, parts: nat): (a: seq<nat>)
    ensures |a| == parts
    ensures forall i :: 0 <= i < parts ==> a[i] == base + if i < extra then 1 else 0
  {
    seq(parts, i => base + if i < extra then 1 else 0)
  }

  function EvenSplit(budget: nat, parts: nat): (a: seq<nat>)
    ensures |a| == parts
  {
    if parts < 1 then [] else Spread(budget / parts, budget % parts, parts)
  }

  lemma {:induction false} SumSpread(base: nat, extra: nat, parts: nat)
    requires extra <= parts
    ensures Sum(Spread(base, extra, parts)) == base * parts + extra
  {
    if parts > 0 {
      var less := if extra > 0 then extra - 1 else 0;
      SumSpread(base, less, parts - 1);
      assert Spread(base, extra, parts)[1..] == Spread(base, less, parts - 1);
    }
  }

  /** The even split spends the whole budget, in shares that differ by at most one. */
  lemma EvenSplitIsFair(budget: nat, parts: nat)
    requires parts >= 1
    ensures |EvenSplit(budget, parts)| == parts && Sum(EvenSplit(budget, parts)) == budget
    ensures forall i, j :: 0 <= i < j < parts ==>
              EvenSplit(budget, parts)[j] <= EvenSplit(budget, parts)[i] <= EvenSplit(budget, parts)[j] + 1
  {
    SumSpread(budget / parts, budget % parts, parts);
  }

  // ----- every split -----

  function Prefixed(first: nat, rests: seq<seq<nat>>): (all: seq<seq<nat>>)
    ensures |all| == |rests| && forall i :: 0 <= i < |all| ==> all[i] == [first] + rests[i]
  {
    seq(|rests|, i requires 0 <= i < |rests| => [first] + rests[i])
  }

  /** Every way to split `budget` into `parts`, in the order they are tried. */
  function Allocations(budget: nat, parts: nat): seq<seq<nat>>
    requires parts >= 1
    decreases parts, 0, 0
  {
    if parts == 1 then [[budget]] else AllocationsFrom(budget, parts, 0)
  }

  /** Those that give at least `taken` to the first part. */
  function AllocationsFrom(budget: nat, parts: nat, taken: nat): seq<seq<nat>>
    requires parts >= 2 && taken <= budget + 1
    decreases parts - 1, 1, budget + 1 - taken
  {
    if taken > budget then []
    else Prefixed(taken, Allocations(budget - taken, parts - 1)) + AllocationsFrom(budget, parts, taken + 1)
  }

  ghost predicate Splits(a: seq<nat>, budget: nat, parts: nat) {
    |a| == parts && Sum(a) == budget
  }

  lemma {:induction false} FromExact(budget: nat, parts: nat, taken: nat, a: seq<nat>)
    requires parts >= 2 && taken <= budget + 1
    ensures a in AllocationsFrom(budget, parts, taken) <==> Splits(a, budget, parts) && a[0] >= taken
    decreases parts - 1, 1, budget + 1 - taken
  {
    if taken <= budget {
      var rests := Allocations(budget - taken, parts - 1);
      FromExact(budget, parts, taken + 1, a);
      if |a| > 0 {
        AllocationsExact(budget - taken, parts - 1, a[1..]);
        if a in Prefixed(taken, rests) {
          var i :| 0 <= i < |rests| && a == [taken] + rests[i];
          assert a[1..] == rests[i];
        }
        if a[0] == taken && a[1..] in rests {
          var i :| 0 <= i < |rests| && a[1..] == rests[i];
          assert a == [taken] + a[1..];
          assert Prefixed(taken, rests)[i] == a;
        }
      }
    }
  }

  /** The search tries exactly the tuples of naturals with the right length and total. */
  lemma {:induction false} AllocationsExact(budget: nat, parts: nat, a: seq<nat>)
    requires parts >= 1
    ensures a in Allocations(budget, parts) <==> Splits(a, budget, parts)
    decreases parts, 0, 0
  {
    if parts == 1 {
      if Splits(a, budget, 1) {
        assert a[1..] == [] && Sum(a) == a[0];
        assert a == [budget] == Allocations(budget, 1)[0];
      }
    } else {
      FromExact(budget, parts, 0, a);
    }
  }

  ghost predicate Distinct(all: seq<seq<nat>>) {
    forall i, j :: 0 <= i < j < |all| ==> all[i] != all[j]
  }

  lemma {:induction false} FromOnce(budget: nat, parts: nat, taken: nat)
    requires parts >= 2 && taken <= budget + 1
    ensures Distinct(AllocationsFrom(budget, parts, taken))
    decreases parts - 1, 1, budget + 1 - taken
  {
    if taken <= budget {
      var rests, later := Allocations(budget - taken, parts - 1), AllocationsFrom(budget, parts, taken + 1);
      AllocationsOnce(budget - taken, parts - 1);
      FromOnce(budget, parts, taken + 1);
      var first := Prefixed(taken, rests);
      forall i, j | 0 <= i < j < |first + later|
        ensures (first + later)[i] != (first + later)[j]
      {
        if j < |first| {
          assert first[i][1..] == rests[i] && first[j][1..] == rests[j];
        } else if i < |first| {
          assert (first + later)[j] in later;
          FromExact(budget, parts, taken + 1, (first + later)[j]);
        }
      }
    }
  }

  /** And each of them once. */
  lemma {:induction false} AllocationsOnce(budget: nat, parts: nat)
    requires parts >= 1
    ensures Distinct(Allocations(budget, parts))
    decreases parts, 0, 0
  {
    if parts > 1 {
      FromOnce(budget, parts, 0);
    }
  }

  // ----- scoring one allocation -----

  datatype Length = Short | Medium | Long | Unlisted
  datatype Entry = Entry(length: Length, size: nat, share: real)

  const LENGTH_ORDER: seq<Length> := [Short, Medium, Long]

  datatype Failure = NegativeBudget | WrongTiers | MissingSize | Curves(error: Error)
  datatype Outcome<T> = Done(value: T) | Failed(failure: Failure)

  datatype Split = Split(perLength: seq<nat>, expected: real, firstLikely: FirstLikely)
  datatype FirstLikely = Never | After(requests: nat)

  /** One tier's cells, in the order the demand lists them. */
  function Tier(demand: seq<Entry>, length: Length): (tier: seq<Entry>)
    ensures forall e :: e in tier <==> e in demand && e.length == length
  {
    if demand == [] then []
    else
      var rest := Tier(demand[..|demand| - 1], length);
      if demand[|demand| - 1].length == length then rest + [demand[|demand| - 1]] else rest
  }

  /** The first `k` tiers' cells, tier by tier. */
  function Ordered(demand: seq<Entry>, k: nat): seq<Entry>
    requires k <= |LENGTH_ORDER|
  {
    if k == 0 then [] else Ordered(demand, k - 1) + Tier(demand, LENGTH_ORDER[k - 1])
  }

  /** What each of those cells gains: every tier's allocation spread over its own cells. */
  function Gains(demand: seq<Entry>, perLength: seq<nat>, k: nat): seq<nat>
    requires k <= |LENGTH_ORDER| == |perLength|
  {
    if k == 0 then []
    else Gains(demand, perLength, k - 1) + EvenSplit(perLength[k - 1], |Tier(demand, LENGTH_ORDER[k - 1])|)
  }

  function Grown(entries: seq<Entry>, gains: seq<nat>): (sizes: seq<nat>)
    requires |entries| == |gains|
    ensures |sizes| == |entries|
    ensures forall i :: 0 <= i < |sizes| ==> sizes[i] == entries[i].size + gains[i]
  {
    seq(|entries|, i requires 0 <= i < |entries| => entries[i].size + gains[i])
  }

  /** What the tiers that have cells were given: an allocation to an empty tier is lost. */
  function Placed(demand: seq<Entry>, perLength: seq<nat>, k: nat): nat
    requires k <= |LENGTH_ORDER| == |perLength|
  {
    if k == 0 then 0
    else Placed(demand, perLength, k - 1) + if Tier(demand, LENGTH_ORDER[k - 1]) == [] then 0 else perLength[k - 1]
  }

  /** Every cell in the order is a cell of the demand with a listed length, every such cell
      occurs as often, and the gains add up to what was placed. */
  lemma {:induction false} GainsArePlaced(demand: seq<Entry>, perLength: seq<nat>, k: nat)
    requires k <= |LENGTH_ORDER| == |perLength|
    ensures |Gains(demand, perLength, k)| == |Ordered(demand, k)|
    ensures Sum(Gains(demand, perLength, k)) == Placed(demand, perLength, k)
    ensures forall i :: 0 <= i < |Gains(demand, perLength, k)| ==> Gains(demand, perLength, k)[i] <= Sum(perLength)
  {
    if k > 0 {
      GainsArePlaced(demand, perLength, k - 1);
      var tier := Tier(demand, LENGTH_ORDER[k - 1]);
      SumConcat(Gains(demand, perLength, k - 1), EvenSplit(perLength[k - 1], |tier|));
      if tier != [] {
        EvenSplitIsFair(perLength[k - 1], |tier|);
      }
      var gains := EvenSplit(perLength[k - 1], |tier|);
      forall i | 0 <= i < |gains|
        ensures gains[i] <= Sum(perLength)
      {
        PartAtMostSum(gains, i);
        PartAtMostSum(perLength, k - 1);
      }
    }
  }

  lemma {:induction false} PartAtMostSum(a: seq<nat>, i: nat)
    requires i < |a|
    ensures a[i] <= Sum(a)
  {
    if i > 0 {
      PartAtMostSum(a[1..], i - 1);
    }
  }

  lemma {:induction false} TiersPartition(demand: seq<Entry>, e: Entry)
    ensures multiset(Ordered(demand, 3))[e] == if e.length.Unlisted? then 0 else multiset(demand)[e]
  {
    TierCount(demand, Short, e);
    TierCount(demand, Medium, e);
    TierCount(demand, Long, e);
    var s, m, l := Tier(demand, Short), Tier(demand, Medium), Tier(demand, Long);
    assert Ordered(demand, 0) == [];
    assert Ordered(demand, 1) == s;
    assert Ordered(demand, 2) == s + m;
    assert Ordered(demand, 3) == s + m + l;
  }

  lemma {:induction false} TierCount(demand: seq<Entry>, length: Length, e: Entry)
    ensures multiset(Tier(demand, length))[e] == if e.length == length then multiset(demand)[e] else 0
  {
    if demand != [] {
      TierCount(demand[..|demand| - 1], length, e);
      assert demand == demand[..|demand| - 1] + [demand[|demand| - 1]];
    }
  }

  /** The cells as scored: each with its own share and the curve of its own grown size. */
  ghost predicate ScoredCells(demand: seq<Entry>, perLength: seq<nat>, survivals: map<nat, seq<real>>, cells: seq<Cell>)
    requires |perLength| == |LENGTH_ORDER|
  {
    var ordered, gains := Ordered(demand, 3), Gains(demand, perLength, 3);
    && |cells| == |ordered| == |gains|
    && forall i :: 0 <= i < |cells| ==>
         && cells[i].share == ordered[i].share
         && ordered[i].size + gains[i] in survivals
         && cells[i].curve == survivals[ordered[i].size + gains[i]]
  }

  ghost predicate Scores(demand: seq<Entry>, survivals: map<nat, seq<real>>, horizon: int, split: Split)
  {
    && |split.perLength| == |LENGTH_ORDER| && horizon >= 0
    && exists cells ::
         && ScoredCells(demand, split.perLength, survivals, cells)
         && split.expected == RequestsBeforeMiss(BandCurve(cells, horizon))
         && IsFirstLikely(BandCurve(cells, horizon), split.firstLikely)
  }

  predicate IsFirstLikely(survival: seq<real>, first: FirstLikely) {
    match first
    case Never => forall n :: 0 <= n < |survival| ==> survival[n] >= 0.5
    case After(n) => n < |survival| && survival[n] < 0.5 && forall m :: 0 <= m < n ==> survival[m] >= 0.5
  }

  method FindFirstLikely(survival: seq<real>) returns (first: FirstLikely)
    ensures IsFirstLikely(survival, first)
  {
    for n := 0 to |survival|
      invariant forall m :: 0 <= m < n ==> survival[m] >= 0.5
    {
      if survival[n] < 0.5 {
        return After(n);
      }
    }
    return Never;
  }

  lemma {:induction false} TierStep(demand: seq<Entry>, perLength: seq<nat>, k: nat)
    requires k < |LENGTH_ORDER| == |perLength|
    ensures var tier := Tier(demand, LENGTH_ORDER[k]);
            && Ordered(demand, k + 1) == Ordered(demand, k) + tier
            && Gains(demand, perLength, k + 1) == Gains(demand, perLength, k) + EvenSplit(perLength[k], |tier|)
  {
  }

  lemma {:induction false} GrownConcat(entries: seq<Entry>, gains: seq<nat>, more: seq<Entry>, moreGains: seq<nat>)
    requires |entries| == |gains| && |more| == |moreGains|
    ensures Grown(entries + more, gains + moreGains) == Grown(entries, gains) + Grown(more, moreGains)
  {
  }

  /** The grown pool sizes, gathered tier by tier as the cells are. */
  method GrownSizes(demand: seq<Entry>, perLength: seq<nat>) returns (sizes: seq<nat>)
    requires |perLength| == |LENGTH_ORDER|
    ensures |Ordered(demand, 3)| == |Gains(demand, perLength, 3)|
    ensures sizes == Grown(Ordered(demand, 3), Gains(demand, perLength, 3))
  {
    hide Tier, Ordered, Gains, EvenSplit, Grown;
    sizes := [];
    GainsArePlaced(demand, perLength, 3);
    NothingGrown(demand, perLength);
    for k := 0 to |LENGTH_ORDER|
      invariant |Ordered(demand, k)| == |Gains(demand, perLength, k)|
      invariant sizes == Grown(Ordered(demand, k), Gains(demand, perLength, k))
    {
      var entries := Tier(demand, LENGTH_ORDER[k]);
      var gains := EvenSplit(perLength[k], |entries|);
      TierStep(demand, perLength, k);
      GrownConcat(Ordered(demand, k), Gains(demand, perLength, k), entries, gains);
      if entries != [] {
        sizes := sizes + Grown(entries, gains);
      } else {
        assert Grown(entries, gains) == [];
      }
    }
  }

  lemma {:induction false} NothingGrown(demand: seq<Entry>, perLength: seq<nat>)
    requires |perLength| == |LENGTH_ORDER|
    ensures Ordered(demand, 0) == [] && Gains(demand, perLength, 0) == []
  {
  }

  /** Every grown size has a curve. */
  ghost predicate Sized(demand: seq<Entry>, perLength: seq<nat>, survivals: map<nat, seq<real>>)
    requires |perLength| == |LENGTH_ORDER|
  {
    && |Ordered(demand, 3)| == |Gains(demand, perLength, 3)|
    && forall size :: size in Grown(Ordered(demand, 3), Gains(demand, perLength, 3)) ==> size in survivals
  }

  ghost predicate LongEnough(survivals: map<nat, seq<real>>, horizon: int) {
    forall size :: size in survivals ==> |survivals[size]| >= horizon + 1
  }

  /** Composes the curves of cells already paired with their shares, and reads off the score. */
  method ScoreCurves(perLength: seq<nat>, shares: seq<real>, curves: seq<seq<real>>, horizon: int) returns (r: Outcome<Split>)
    requires |shares| == |curves|
    ensures r.Done? ==>
              && r.value.perLength == perLength && horizon >= 0
              && r.value.expected == RequestsBeforeMiss(BandCurve(Cells(shares, curves), horizon))
              && IsFirstLikely(BandCurve(Cells(shares, curves), horizon), r.value.firstLikely)
    ensures horizon >= 0 && (forall curve :: curve in curves ==> |curve| >= horizon + 1) ==> r.Done?
    ensures r.Failed? ==> r.failure.Curves?
  {
    hide BandCurve, RequestsBeforeMiss;
    var survival := ComposeCurves(shares, curves, horizon);
    match survival
    case Err(e) => return Failed(Curves(e));
    case Ok(curve) =>
      var first := FindFirstLikely(curve);
      r := Done(Split(perLength, RequestsBeforeMiss(curve), first));
  }

  /** Fails only for a wrong number of tiers, a size without a curve, or curves that cannot
      be composed up to the horizon. */
  method ScoreAllocation(demand: seq<Entry>, perLength: seq<nat>, survivals: map<nat, seq<real>>, horizon: int)
    returns (r: Outcome<Split>)
    ensures r == Failed(WrongTiers) <==> |perLength| != |LENGTH_ORDER|
    ensures |perLength| == |LENGTH_ORDER| ==> (r == Failed(MissingSize) <==> !Sized(demand, perLength, survivals))
    ensures r.Done? ==> r.value.perLength == perLength && Scores(demand, survivals, horizon, r.value)
    ensures |perLength| == |LENGTH_ORDER| && Sized(demand, perLength, survivals) && LongEnough(survivals, horizon) && horizon >= 0
            ==> r.Done?
    ensures r.Failed? ==> !r.failure.NegativeBudget?
  {
    if |perLength| != |LENGTH_ORDER| {
      return Failed(WrongTiers);
    }
    var sizes := GrownSizes(demand, perLength);
    var ordered := Ordered(demand, 3);
    hide Ordered, Gains, BandCurve, RequestsBeforeMiss, IsFirstLikely, Looked;
    if exists size :: size in sizes && size !in survivals {
      return Failed(MissingSize);
    }
    var shares := seq(|ordered|, i requires 0 <= i < |ordered| => ordered[i].share);
    var curves := Looked(sizes, survivals);
    r := ScoreCurves(perLength, shares, curves, horizon);
    if r.Done? {
      PairedCells(demand, perLength, survivals, shares, curves);
      WitnessScore(demand, survivals, horizon, r.value, Cells(shares, curves));
    }
  }

  lemma {:induction false} PairedCells(demand: seq<Entry>, perLength: seq<nat>, survivals: map<nat, seq<real>>,
        shares: seq<real>, curves: seq<seq<real>>)
    requires |perLength| == |LENGTH_ORDER| && Sized(demand, perLength, survivals)
    requires |shares| == |Ordered(demand, 3)| && forall i :: 0 <= i < |shares| ==> shares[i] == Ordered(demand, 3)[i].share
    requires curves == Looked(Grown(Ordered(demand, 3), Gains(demand, perLength, 3)), survivals)
    ensures ScoredCells(demand, perLength, survivals, Cells(shares, curves))
  {
    hide Ordered, Gains, Looked;
  }

  lemma {:induction false} WitnessScore(demand: seq<Entry>, survivals: map<nat, seq<real>>, horizon: nat,
        split: Split, cells: seq<Cell>)
    requires |split.perLength| == |LENGTH_ORDER| && ScoredCells(demand, split.perLength, survivals, cells)
    requires split.expected == RequestsBeforeMiss(BandCurve(cells, horizon))
    requires IsFirstLikely(BandCurve(cells, horizon), split.firstLikely)
    ensures Scores(demand, survivals, horizon, split)
  {
    hide ScoredCells, RequestsBeforeMiss, BandCurve, IsFirstLikely;
  }

  function Looked(sizes: seq<nat>, survivals: map<nat, seq<real>>): (curves: seq<seq<real>>)
    requires forall size :: size in sizes ==> size in survivals
    ensures |curves| == |sizes|
    ensures forall i :: 0 <= i < |sizes| ==> sizes[i] in survivals && curves[i] == survivals[sizes[i]]
  {
    if sizes == [] then []
    else Looked(sizes[..|sizes| - 1], survivals) + [survivals[sizes[|sizes| - 1]]]
  }

  /** The score of an allocation is one number: it depends on nothing but the allocation. */
  lemma {:induction false} ScoreIsUnique(demand: seq<Entry>, survivals: map<nat, seq<real>>, horizon: int, a: Split, b: Split)
    requires Scores(demand, survivals, horizon, a) && Scores(demand, survivals, horizon, b) && a.perLength == b.perLength
    ensures a.expected == b.expected
  {
    hide RequestsBeforeMiss, BandCurve, Ordered, Gains, IsFirstLikely;
    var x :| ScoredCells(demand, a.perLength, survivals, x) && a.expected == RequestsBeforeMiss(BandCurve(x, horizon));
    var y :| ScoredCells(demand, b.perLength, survivals, y) && b.expected == RequestsBeforeMiss(BandCurve(y, horizon));
    assert x == y;
  }

  // ----- the search -----

  /** `best` scores at least every one of the first `k` allocations, strictly more than
      those before it, and is one of them. */
  ghost predicate BestOf(demand: seq<Entry>, survivals: map<nat, seq<real>>, horizon: int, all: seq<seq<nat>>,
        k: nat, best: Split)
    requires k <= |all|
  {
    && Scores(demand, survivals, horizon, best)
    && exists at :: 0 <= at < k && all[at] == best.perLength
         && forall i, s :: 0 <= i < k && Scores(demand, survivals, horizon, s) && all[i] == s.perLength ==>
              if i < at then s.expected < best.expected else s.expected <= best.expected
  }

  ghost predicate AllScored(demand: seq<Entry>, survivals: map<nat, seq<real>>, horizon: int, all: seq<seq<nat>>,
        scored: seq<Split>) {
    && |scored| <= |all|
    && forall i :: 0 <= i < |scored| ==> Scores(demand, survivals, horizon, scored[i]) && scored[i].perLength == all[i]
  }

  /** The first of the highest expectations. */
  method Highest(scored: seq<Split>) returns (at: nat)
    requires scored != []
    ensures at < |scored|
    ensures forall i :: 0 <= i < |scored| ==> if i < at then scored[i].expected < scored[at].expected
                                              else scored[i].expected <= scored[at].expected
  {
    at := 0;
    for k := 1 to |scored|
      invariant at < k
      invariant forall i :: 0 <= i < k ==> if i < at then scored[i].expected < scored[at].expected
                                           else scored[i].expected <= scored[at].expected
    {
      if scored[k].expected > scored[at].expected {
        at := k;
      }
    }
  }

  lemma {:induction false} HighestIsBest(demand: seq<Entry>, survivals: map<nat, seq<real>>, horizon: int,
        all: seq<seq<nat>>, scored: seq<Split>, at: nat)
    requires AllScored(demand, survivals, horizon, all, scored) && |scored| == |all| && at < |all|
    requires forall i :: 0 <= i < |scored| ==> if i < at then scored[i].expected < scored[at].expected
                                               else scored[i].expected <= scored[at].expected
    ensures BestOf(demand, survivals, horizon, all, |all|, scored[at])
  {
    hide Scores;
    forall i, s | 0 <= i < |all| && Scores(demand, survivals, horizon, s) && all[i] == s.perLength
      ensures if i < at then s.expected < scored[at].expected else s.expected <= scored[at].expected
    {
      ScoreIsUnique(demand, survivals, horizon, s, scored[i]);
    }
  }

  /** What the search promises: the best of all allocations, no worse than the even one. */
  ghost predicate Optimal(demand: seq<Entry>, survivals: map<nat, seq<real>>, horizon: int, budget: nat,
        best: Split, even: Split) {
    && Splits(best.perLength, budget, 3)
    && BestOf(demand, survivals, horizon, Allocations(budget, 3), |Allocations(budget, 3)|, best)
    && Scores(demand, survivals, horizon, even) && even.perLength == EvenSplit(budget, 3)
  }

  /** The best allocation beats or ties every allocation of the budget, so the gain over
      the even split is never negative. */
  lemma {:induction false} BestBeatsEverySplit(demand: seq<Entry>, survivals: map<nat, seq<real>>, horizon: int,
        budget: nat, best: Split, even: Split, other: Split)
    requires Optimal(demand, survivals, horizon, budget, best, even)
    requires Scores(demand, survivals, horizon, other) && Splits(other.perLength, budget, 3)
    ensures other.expected <= best.expected
    ensures best.expected - even.expected >= 0.0
  {
    hide Scores, Allocations, EvenSplit, Splits;
    var all := Allocations(budget, 3);
    AllocationsExact(budget, 3, other.perLength);
    EvenIsOne(budget);
    var i :| 0 <= i < |all| && all[i] == other.perLength;
    var j :| 0 <= j < |all| && all[j] == even.perLength;
  }

  lemma EvenIsOne(budget: nat)
    ensures Splits(EvenSplit(budget, 3), budget, 3) && EvenSplit(budget, 3) in Allocations(budget, 3)
  {
    EvenSplitIsFair(budget, 3);
    AllocationsExact(budget, 3, EvenSplit(budget, 3));
  }

  /** The table holds a curve for every size a budget can grow a cell to. */
  ghost predicate Complete(demand: seq<Entry>, survivals: map<nat, seq<real>>, budget: int) {
    forall e, size: nat :: e in demand && e.size <= size <= e.size + budget ==> size in survivals
  }

  lemma {:induction false} CompleteIsSized(demand: seq<Entry>, survivals: map<nat, seq<real>>, budget: nat, perLength: seq<nat>)
    requires Complete(demand, survivals, budget) && Splits(perLength, budget, 3)
    ensures Sized(demand, perLength, survivals)
  {
    hide Ordered, Gains, Sum;
    GainsArePlaced(demand, perLength, 3);
    var ordered, gains := Ordered(demand, 3), Gains(demand, perLength, 3);
    forall i | 0 <= i < |ordered|
      ensures ordered[i].size + gains[i] in survivals
    {
      OrderedFrom(demand, 3, ordered[i]);
    }
  }

  lemma {:induction false} OrderedFrom(demand: seq<Entry>, k: nat, e: Entry)
    requires k <= |LENGTH_ORDER| && e in Ordered(demand, k)
    ensures e in demand
  {
    if e !in Tier(demand, LENGTH_ORDER[k - 1]) {
      OrderedFrom(demand, k - 1, e);
    }
  }

  lemma {:induction false} Usable(demand: seq<Entry>, survivals: map<nat, seq<real>>, budget: nat, horizon: int,
        perLength: seq<nat>)
    requires Splits(perLength, budget, 3)
    ensures |perLength| == |LENGTH_ORDER|
    ensures Complete(demand, survivals, budget) ==> Sized(demand, perLength, survivals)
  {
    hide Sized, Complete;
    if Complete(demand, survivals, budget) {
      CompleteIsSized(demand, survivals, budget, perLength);
    }
  }

  /** Every allocation's score, in the order the allocations are generated. */
  method ScoreAll(demand: seq<Entry>, budget: nat, horizon: int, survivals: map<nat, seq<real>>) returns (r: Outcome<seq<Split>>)
    ensures r.Done? ==>
          && |r.value| == |Allocations(budget, 3)|
          && AllScored(demand, survivals, horizon, Allocations(budget, 3), r.value)
    ensures r.Failed? ==> !r.failure.NegativeBudget?
    ensures horizon >= 0 && Complete(demand, survivals, budget) && LongEnough(survivals, horizon) ==> r.Done?
  {
    hide Scores, Sized, LongEnough, Splits, Allocations, Complete;
    var all := Allocations(budget, 3);
    var scored := [];
    for k := 0 to |all|
      invariant |scored| == k && AllScored(demand, survivals, horizon, all, scored)
    {
      AllocationsExact(budget, 3, all[k]);
      Usable(demand, survivals, budget, horizon, all[k]);
      var score := ScoreAllocation(demand, all[k], survivals, horizon);
      if score.Failed? {
        return Failed(score.failure);
      }
      scored := scored + [score.value];
    }
    r := Done(scored);
  }

  method OptimalSplit(demand: seq<Entry>, budget: int, horizon: int, survivals: map<nat, seq<real>>)
    returns (r: Outcome<(Split, Split)>)
    ensures r == Failed(NegativeBudget) <==> budget < 0
    ensures r.Done? ==> budget >= 0 && Optimal(demand, survivals, horizon, budget, r.value.0, r.value.1)
    ensures budget >= 0 && horizon >= 0 && Complete(demand, survivals, budget) && LongEnough(survivals, horizon) ==> r.Done?
  {
    if budget < 0 {
      return Failed(NegativeBudget);
    }
    hide *;
    var all := Allocations(budget, 3);
    var scored := ScoreAll(demand, budget, horizon, survivals);
    if scored.Failed? {
      return Failed(scored.failure);
    }
    EvenIsOne(budget);
    var at := Highest(scored.value);
    HighestIsBest(demand, survivals, horizon, all, scored.value, at);
    Usable(demand, survivals, budget, horizon, EvenSplit(budget, 3));
    var even := ScoreAllocation(demand, EvenSplit(budget, 3), survivals, horizon);
    if even.Failed? {
      return Failed(even.failure);
    }
    r := Done((scored.value[at], even.value));
    IsOptimal(demand, survivals, horizon, budget, scored.value[at], even.value);
  }

  lemma {:induction false} IsOptimal(demand: seq<Entry>, survivals: map<nat, seq<real>>, horizon: int, budget: nat,
        best: Split, even: Split)
    requires BestOf(demand, survivals, horizon, Allocations(budget, 3), |Allocations(budget, 3)|, best)
    requires Scores(demand, survivals, horizon, even) && even.perLength == EvenSplit(budget, 3)
    ensures Optimal(demand, survivals, horizon, budget, best, even)
  {
    hide Scores, Allocations;
    AllocationsExact(budget, 3, best.perLength);
  }

  // ----- more budget never hurts -----

  /** Larger pools survive at least as well. */
  ghost predicate LargerIsBetter(survivals: map<nat, seq<real>>) {
    forall m, n :: m in survivals && n in survivals && m <= n ==>
      forall j: nat :: At(survivals[m], j) <= At(survivals[n], j)
  }

  lemma PartGrows(budget: nat, parts: nat, i: nat)
    requires parts >= 1 && i < parts
    ensures EvenSplit(budget, parts)[i] <= EvenSplit(budget + 1, parts)[i]
  {
    var q, r := budget / parts, budget % parts;
    assert budget == q * parts + r;
    if r + 1 < parts {
      QuotientIs(budget + 1, parts, q, r + 1);
    } else {
      assert (q + 1) * parts == q * parts + parts;
      QuotientIs(budget + 1, parts, q + 1, 0);
    }
  }

  /** The allocation that puts one more book into the first tier. */
  function OneMore(perLength: seq<nat>): (more: seq<nat>)
    requires |perLength| > 0
    ensures |more| == |perLength| && Sum(more) == Sum(perLength) + 1
  {
    assert perLength[0 := perLength[0] + 1][1..] == perLength[1..];
    perLength[0 := perLength[0] + 1]
  }

  lemma {:induction false} GainsGrow(demand: seq<Entry>, perLength: seq<nat>, k: nat)
    requires k <= |LENGTH_ORDER| == |perLength|
    ensures var less, more := Gains(demand, perLength, k), Gains(demand, OneMore(perLength), k);
            |less| == |more| && forall i :: 0 <= i < |less| ==> less[i] <= more[i]
  {
    hide EvenSplit, Tier;
    if k > 0 {
      GainsGrow(demand, perLength, k - 1);
      var parts := |Tier(demand, LENGTH_ORDER[k - 1])|;
      if k == 1 {
        forall i | 0 <= i < parts
          ensures EvenSplit(perLength[0], parts)[i] <= EvenSplit(perLength[0] + 1, parts)[i]
        {
          PartGrows(perLength[0], parts, i);
        }
      }
    }
  }

  /** Shares that are probabilities over the listed cells, and curves that are too. */
  ghost predicate BandShares(demand: seq<Entry>, survivals: map<nat, seq<real>>) {
    && (forall e :: e in demand ==> e.share >= 0.0)
    && ShareTotal(Ordered(demand, 3)) == 1.0
    && forall size :: size in survivals ==> UnitCurve(survivals[size])
  }

  function ShareTotal(entries: seq<Entry>): real {
    if entries == [] then 0.0 else ShareTotal(entries[..|entries| - 1]) + entries[|entries| - 1].share
  }

  lemma {:induction false} ShareTotals(entries: seq<Entry>, cells: seq<Cell>, k: nat)
    requires k <= |cells| == |entries| && forall i :: 0 <= i < |cells| ==> cells[i].share == entries[i].share
    ensures ShareSum(cells, k) == ShareTotal(entries[..k])
  {
    if k > 0 {
      ShareTotals(entries, cells, k - 1);
      assert entries[..k][..k - 1] == entries[..k - 1];
    }
  }

  lemma {:induction false} ScoredAreProbabilities(demand: seq<Entry>, perLength: seq<nat>, survivals: map<nat,
        seq<real>>, cells: seq<Cell>)
    requires |perLength| == |LENGTH_ORDER| && ScoredCells(demand, perLength, survivals, cells) && BandShares(demand, survivals)
    ensures Probabilities(cells)
  {
    hide Gains;
    var ordered := Ordered(demand, 3);
    ShareTotals(ordered, cells, |cells|);
    assert ordered[..|cells|] == ordered;
    forall i | 0 <= i < |cells|
      ensures cells[i].share >= 0.0
    {
      OrderedFrom(demand, 3, ordered[i]);
    }
  }

  lemma {:induction false} FirstLikelyExists(survival: seq<real>, n: nat) returns (first: FirstLikely)
    requires n <= |survival| && forall m :: 0 <= m < n ==> survival[m] >= 0.5
    ensures IsFirstLikely(survival, first)
    decreases |survival| - n
  {
    if n == |survival| {
      first := Never;
    } else if survival[n] < 0.5 {
      first := After(n);
    } else {
      first := FirstLikelyExists(survival, n + 1);
    }
  }

  lemma {:induction false} ScoreOf(demand: seq<Entry>, survivals: map<nat, seq<real>>, horizon: nat, perLength: seq<nat>)
    returns (split: Split, cells: seq<Cell>)
    requires |perLength| == |LENGTH_ORDER| && Sized(demand, perLength, survivals)
    ensures Scores(demand, survivals, horizon, split) && split.perLength == perLength
    ensures ScoredCells(demand, perLength, survivals, cells)
    ensures split.expected == RequestsBeforeMiss(BandCurve(cells, horizon))
  {
    hide Gains, Ordered, IsFirstLikely, BandCurve, RequestsBeforeMiss, ScoredCells, Scores, Looked;
    var ordered := Ordered(demand, 3);
    var shares := seq(|ordered|, i requires 0 <= i < |ordered| => ordered[i].share);
    var curves := Looked(Grown(ordered, Gains(demand, perLength, 3)), survivals);
    cells := Cells(shares, curves);
    PairedCells(demand, perLength, survivals, shares, curves);
    var first := FirstLikelyExists(BandCurve(cells, horizon), 0);
    split := Split(perLength, RequestsBeforeMiss(BandCurve(cells, horizon)), first);
    WitnessScore(demand, survivals, horizon, split, cells);
  }

  lemma {:induction false} MoreDominates(demand: seq<Entry>, perLength: seq<nat>, survivals: map<nat, seq<real>>,
        low: seq<Cell>, high: seq<Cell>)
    requires |perLength| == |LENGTH_ORDER| && LargerIsBetter(survivals)
    requires ScoredCells(demand, perLength, survivals, low) && ScoredCells(demand, OneMore(perLength), survivals, high)
    ensures Dominates(high, low)
  {
    GainsGrow(demand, perLength, 3);
    hide Gains, Ordered, OneMore, At;
    var ordered, less, more := Ordered(demand, 3), Gains(demand, perLength, 3), Gains(demand, OneMore(perLength), 3);
    forall i, j: nat | 0 <= i < |low|
      ensures At(low[i].curve, j) <= At(high[i].curve, j)
    {
      var m, n := ordered[i].size + less[i], ordered[i].size + more[i];
      assert m <= n && m in survivals && n in survivals;
    }
  }

  lemma {:induction false} OneMoreSplits(perLength: seq<nat>, budget: nat)
    requires Splits(perLength, budget, 3)
    ensures Splits(OneMore(perLength), budget + 1, 3)
  {
  }

  /** With larger pools surviving at least as well, one more book in the budget never lowers
      what the best allocation achieves. */
  lemma {:induction false} MoreBudgetHelps(demand: seq<Entry>, survivals: map<nat, seq<real>>, horizon: nat, budget: nat,
      best: Split, even: Split, better: Split, betterEven: Split)
    requires Optimal(demand, survivals, horizon, budget, best, even)
    requires Optimal(demand, survivals, horizon, budget + 1, better, betterEven)
    requires Complete(demand, survivals, budget + 1) && LargerIsBetter(survivals) && BandShares(demand, survivals)
    ensures best.expected <= better.expected
  {
    var low :| ScoredCells(demand, best.perLength, survivals, low) && best.expected
          == RequestsBeforeMiss(BandCurve(low, horizon));
    hide Gains, Ordered, Sum, IsFirstLikely, BandCurve, RequestsBeforeMiss, ScoredCells, Scores, OneMore, BestOf,
        Sized, LargerIsBetter, BandShares, Complete;
    var more := OneMore(best.perLength);
    OneMoreSplits(best.perLength, budget);
    CompleteIsSized(demand, survivals, budget + 1, more);
    var split, high := ScoreOf(demand, survivals, horizon, more);
    MoreDominates(demand, best.perLength, survivals, low, high);
    ScoredAreProbabilities(demand, best.perLength, survivals, low);
    RaisingCurvesHelps(low, high, horizon);
    BestBeatsEverySplit(demand, survivals, horizon, budget + 1, better, betterEven, split);
  }

  // ----- which cells an allocation reaches -----

  /** What the allocation gives each length: it lists short, medium and long. */
  function GivenTo(perLength: seq<nat>, length: Length): nat
    requires |perLength| == 3
  {
    match length
    case Short => perLength[0]
    case Medium => perLength[1]
    case Long => perLength[2]
    case Unlisted => 0
  }

  /** What the cells of one length gain together. */
  function GainOf(entries: seq<Entry>, gains: seq<nat>, length: Length): nat
    requires |entries| == |gains|
  {
    if entries == [] then 0
    else
      var m := |entries| - 1;
      GainOf(entries[..m], gains[..m], length) + if entries[m].length == length then gains[m] else 0
  }

  lemma {:induction false} GainOfConcat(a: seq<Entry>, x: seq<nat>, b: seq<Entry>, y: seq<nat>, length: Length)
    requires |a| == |x| && |b| == |y|
    ensures GainOf(a + b, x + y, length) == GainOf(a, x, length) + GainOf(b, y, length)
  {
    if b == [] {
      assert a + b == a && x + y == x;
    } else {
      var m := |b| - 1;
      assert (a + b)[..|a + b| - 1] == a + b[..m] && (x + y)[..|x + y| - 1] == x + y[..m];
      GainOfConcat(a, x, b[..m], y[..m], length);
    }
  }

  lemma {:induction false} SumLast(gains: seq<nat>)
    requires gains != []
    ensures Sum(gains) == Sum(gains[..|gains| - 1]) + gains[|gains| - 1]
  {
    var m := |gains| - 1;
    assert gains == gains[..m] + [gains[m]];
    SumConcat(gains[..m], [gains[m]]);
    assert [gains[m]][1..] == [];
  }

  lemma {:induction false} GainOfOneLength(entries: seq<Entry>, gains: seq<nat>, of: Length, length: Length)
    requires |entries| == |gains| && forall e :: e in entries ==> e.length == of
    ensures GainOf(entries, gains, length) == if of == length then Sum(gains) else 0
  {
    if entries != [] {
      var m := |entries| - 1;
      assert entries[m] in entries;
      GainOfOneLength(entries[..m], gains[..m], of, length);
      SumLast(gains);
    }
  }

  /** The three tiers, spelled out. */
  lemma {:induction false} ThreeTiers(demand: seq<Entry>, perLength: seq<nat>)
    requires |perLength| == 3
    ensures var s, m, l := Tier(demand, Short), Tier(demand, Medium), Tier(demand, Long);
            && Ordered(demand, 3) == s + m + l
            && Gains(demand, perLength, 3)
               == EvenSplit(perLength[0], |s|) + EvenSplit(perLength[1], |m|) + EvenSplit(perLength[2], |l|)
  {
    hide Tier, EvenSplit;
    assert Ordered(demand, 0) == [] && Gains(demand, perLength, 0) == [];
    TierStep(demand, perLength, 0);
    TierStep(demand, perLength, 1);
    TierStep(demand, perLength, 2);
  }

  lemma {:induction false} TierGain(demand: seq<Entry>, of: Length, given: nat, length: Length)
    ensures var tier := Tier(demand, of);
            GainOf(tier, EvenSplit(given, |tier|), length)
            == if of == length && (exists e :: e in demand && e.length == of) then given else 0
  {
    var tier := Tier(demand, of);
    GainOfOneLength(tier, EvenSplit(given, |tier|), of, length);
    hide Tier, EvenSplit, GainOf;
    if tier != [] {
      EvenSplitIsFair(given, |tier|);
      assert tier[0] in tier;
    }
    if e :| e in demand && e.length == of {
      assert e in tier;
    }
  }

  /** The cells of each listed length gain together exactly what the allocation gives that
      length, if there are such cells. */
  lemma {:induction false} EachLengthGetsItsOwn(demand: seq<Entry>, perLength: seq<nat>, length: Length)
    requires |perLength| == 3
    ensures |Ordered(demand, 3)| == |Gains(demand, perLength, 3)|
    ensures GainOf(Ordered(demand, 3), Gains(demand, perLength, 3), length)
         == if exists e :: e in demand && e.length == length then GivenTo(perLength, length) else 0
  {
    var s, m, l := Tier(demand, Short), Tier(demand, Medium), Tier(demand, Long);
    var x, y, z := EvenSplit(perLength[0], |s|), EvenSplit(perLength[1], |m|), EvenSplit(perLength[2], |l|);
    ThreeTiers(demand, perLength);
    hide Tier, EvenSplit, GainOf, Ordered, Gains;
    GainOfConcat(s + m, x + y, l, z, length);
    GainOfConcat(s, x, m, y, length);
    TierGain(demand, Short, perLength[0], length);
    TierGain(demand, Medium, perLength[1], length);
    TierGain(demand, Long, perLength[2], length);
  }

  ghost predicate FairWithin(entries: seq<Entry>, gains: seq<nat>)
    requires |entries| == |gains|
  {
    forall i, j :: 0 <= i < j < |entries| && entries[i].length == entries[j].length ==> gains[j] <= gains[i] <= gains[j] + 1
  }

  /** Cells of one length gain alike, to within one book. */
  lemma {:induction false} EqualLengthsGainAlike(demand: seq<Entry>, perLength: seq<nat>)
    requires |perLength| == 3
    ensures |Ordered(demand, 3)| == |Gains(demand, perLength, 3)|
    ensures FairWithin(Ordered(demand, 3), Gains(demand, perLength, 3))
  {
    var s, m, l := Tier(demand, Short), Tier(demand, Medium), Tier(demand, Long);
    ThreeTiers(demand, perLength);
    FairTier(perLength[0], |s|);
    FairTier(perLength[1], |m|);
    FairTier(perLength[2], |l|);
    hide EvenSplit, Ordered, Gains;
    forall i, j | 0 <= i < j < |s + m + l| && (s + m + l)[i].length == (s + m + l)[j].length
      ensures var gains := Gains(demand, perLength, 3); gains[j] <= gains[i] <= gains[j] + 1
    {
      InTier(demand, s, m, l, i);
      InTier(demand, s, m, l, j);
    }
  }

  lemma FairTier(given: nat, parts: nat)
    ensures forall i, j :: 0 <= i < j < parts ==>
              EvenSplit(given, parts)[j] <= EvenSplit(given, parts)[i] <= EvenSplit(given, parts)[j] + 1
  {
    if parts > 0 {
      EvenSplitIsFair(given, parts);
    }
  }

  lemma {:induction false} InTier(demand: seq<Entry>, s: seq<Entry>, m: seq<Entry>, l: seq<Entry>, i: nat)
    requires s == Tier(demand, Short) && m == Tier(demand, Medium) && l == Tier(demand, Long) && i < |s + m + l|
    ensures var e := (s + m + l)[i];
            if i < |s| then e.length == Short else if i < |s| + |m| then e.length == Medium else e.length == Long
  {
    hide Tier;
    var e := (s + m + l)[i];
    assert e in if i < |s| then s else if i < |s| + |m| then m else l;
  }

  /** A score depends on what an allocation gives a length only through cells of that
      length: books for a length without cells change nothing. */
  lemma {:induction false} ScoreNeedsCells(demand: seq<Entry>, survivals: map<nat, seq<real>>, horizon: int, a: Split, b: Split)
    requires Scores(demand, survivals, horizon, a) && Scores(demand, survivals, horizon, b)
    requires |a.perLength| == |b.perLength| == 3
    requires forall e :: e in demand ==> GivenTo(a.perLength, e.length) == GivenTo(b.perLength, e.length)
    ensures a.expected == b.expected
  {
    SameGains(demand, a.perLength, b.perLength);
    hide RequestsBeforeMiss, BandCurve, Ordered, Gains, IsFirstLikely;
    var x :| ScoredCells(demand, a.perLength, survivals, x) && a.expected == RequestsBeforeMiss(BandCurve(x, horizon));
    var y :| ScoredCells(demand, b.perLength, survivals, y) && b.expected == RequestsBeforeMiss(BandCurve(y, horizon));
    assert x == y;
  }

  lemma {:induction false} SameGains(demand: seq<Entry>, p: seq<nat>, q: seq<nat>)
    requires |p| == |q| == 3 && forall e :: e in demand ==> GivenTo(p, e.length) == GivenTo(q, e.length)
    ensures Gains(demand, p, 3) == Gains(demand, q, 3)
  {
    var s, m, l := Tier(demand, Short), Tier(demand, Medium), Tier(demand, Long);
    ThreeTiers(demand, p);
    ThreeTiers(demand, q);
    SameSplit(demand, Short, p, q);
    SameSplit(demand, Medium, p, q);
    SameSplit(demand, Long, p, q);
    hide Tier, EvenSplit, Gains;
  }

  lemma {:induction false} SameSplit(demand: seq<Entry>, length: Length, p: seq<nat>, q: seq<nat>)
    requires |p| == |q| == 3 && forall e :: e in demand ==> GivenTo(p, e.length) == GivenTo(q, e.length)
    ensures var parts := |Tier(demand, length)|;
            EvenSplit(GivenTo(p, length), parts) == EvenSplit(GivenTo(q, length), parts)
  {
    var tier := Tier(demand, length);
    if tier != [] {
      assert tier[0] in tier;
    }
  }
}
