/** What an allocation gives each place of the demand, and so what it scores, and which of the
    equally good allocations the search of `scripts/analyze_sibling_exposure.py` returns. */
module BudgetPlaces {

  import opened BandSurvival
  import opened BudgetSplit

  // ----- where the cells of a length stand -----

  /** The places of a length, in the order of the demand. */
  function PlacesOf(demand: seq<Entry>, length: Length): (places: seq<nat>)
    ensures forall p: nat :: p in places <==> p < |demand| && demand[p].length == length
    ensures forall i, j :: 0 <= i < j < |places| ==> places[i] < places[j]
  {
    if demand == [] then []
    else
      var m := |demand| - 1;
      var before := PlacesOf(demand[..m], length);
      assert forall i :: 0 <= i < |before| ==> before[i] in before;
      if demand[m].length == length then before + [m] else before
  }

  /** The earlier places of the same length. */
  function Earlier(demand: seq<Entry>, p: nat): (places: set<nat>)
    requires p < |demand|
  {
    set q: nat | q < p && demand[q].length == demand[p].length
  }

  function AllOf(demand: seq<Entry>, length: Length): (places: set<nat>) {
    set q: nat | q < |demand| && demand[q].length == length
  }

  lemma {:induction false} NextPlace(demand: seq<Entry>, length: Length)
    requires demand != []
    ensures var m := |demand| - 1;
            var more := demand[m].length == length;
            && Tier(demand, length) == (if more then Tier(demand[..m], length) + [demand[m]] else Tier(demand[..m], length))
            && PlacesOf(demand, length) == if more then PlacesOf(demand[..m], length) + [m] else PlacesOf(demand[..m], length)
  {
  }

  lemma {:induction false} TierAt(demand: seq<Entry>, length: Length)
    ensures |Tier(demand, length)| == |PlacesOf(demand, length)|
    ensures forall k :: 0 <= k < |PlacesOf(demand, length)| ==>
              PlacesOf(demand, length)[k] < |demand| && Tier(demand, length)[k] == demand[PlacesOf(demand, length)[k]]
  {
    if demand != [] {
      TierAt(demand[..|demand| - 1], length);
      NextPlace(demand, length);
      hide Tier, PlacesOf;
    }
  }

  lemma {:induction false} OneMoreOf(demand: seq<Entry>, length: Length)
    requires demand != []
    ensures var m := |demand| - 1;
            && m !in AllOf(demand[..m], length)
            && AllOf(demand, length)
               == if demand[m].length == length then AllOf(demand[..m], length) + {m} else AllOf(demand[..m], length)
  {
  }

  lemma {:induction false} PlacesCounted(demand: seq<Entry>, length: Length)
    ensures |PlacesOf(demand, length)| == |AllOf(demand, length)|
  {
    if demand == [] {
      assert AllOf(demand, length) == {};
    } else {
      var m := |demand| - 1;
      PlacesCounted(demand[..m], length);
      OneMoreOf(demand, length);
      hide AllOf;
    }
  }

  /** The `k`-th place of a length has `k` earlier ones. */
  lemma {:induction false} RankOfPlace(demand: seq<Entry>, length: Length, k: nat)
    requires k < |PlacesOf(demand, length)|
    ensures PlacesOf(demand, length)[k] < |demand| && demand[PlacesOf(demand, length)[k]].length == length
    ensures |Earlier(demand, PlacesOf(demand, length)[k])| == k
  {
    var m := |demand| - 1;
    var before, places := PlacesOf(demand[..m], length), PlacesOf(demand, length);
    assert places[k] in places;
    if k < |before| {
      RankOfPlace(demand[..m], length, k);
      assert Earlier(demand, places[k]) == Earlier(demand[..m], before[k]);
    } else {
      PlacesCounted(demand[..m], length);
      assert Earlier(demand, m) == AllOf(demand[..m], length);
    }
  }

  // ----- what each place gains -----

  /** The listed places: short ones first, then medium, then long, each in demand order. */
  function Order(demand: seq<Entry>): (order: seq<nat>)
    ensures forall p: nat :: p in order <==> p < |demand| && demand[p].length in {Short, Medium, Long}
  {
    PlacesOf(demand, Short) + PlacesOf(demand, Medium) + PlacesOf(demand, Long)
  }

  function Portion(given: nat, parts: nat, rank: nat): nat
    requires parts > 0
  {
    given / parts + if rank < given % parts then 1 else 0
  }

  /** What an allocation gives one place: an even part of what its length is given, and one of
      the books left over while they last. */
  function GainAt(demand: seq<Entry>, perLength: seq<nat>, p: nat): nat
    requires |perLength| == 3 && p < |demand|
  {
    assert p in AllOf(demand, demand[p].length);
    Portion(GivenTo(perLength, demand[p].length), |AllOf(demand, demand[p].length)|, |Earlier(demand, p)|)
  }

  lemma EvenAt(given: nat, parts: nat, k: nat)
    requires k < parts
    ensures EvenSplit(given, parts)[k] == Portion(given, parts, k)
  {
  }

  lemma {:induction false} TierGains(demand: seq<Entry>, perLength: seq<nat>, length: Length, k: nat)
    requires |perLength| == 3 && k < |PlacesOf(demand, length)| == |Tier(demand, length)|
    ensures var p := PlacesOf(demand, length)[k];
            && p < |demand| && Tier(demand, length)[k] == demand[p]
            && EvenSplit(GivenTo(perLength, length), |Tier(demand, length)|)[k] == GainAt(demand, perLength, p)
  {
    TierAt(demand, length);
    RankOfPlace(demand, length, k);
    PlacesCounted(demand, length);
    EvenAt(GivenTo(perLength, length), |Tier(demand, length)|, k);
    hide Tier, EvenSplit, Portion, GivenTo, AllOf, Earlier;
  }

  /** Entries and gains that belong to these places, one by one. */
  ghost predicate AtPlaces(demand: seq<Entry>, perLength: seq<nat>, entries: seq<Entry>, gains: seq<nat>, places: seq<nat>)
    requires |perLength| == 3
  {
    && |entries| == |gains| == |places|
    && forall i :: 0 <= i < |places| ==>
         places[i] < |demand| && entries[i] == demand[places[i]] && gains[i] == GainAt(demand, perLength, places[i])
  }

  lemma {:induction false} PlacesConcat(demand: seq<Entry>, perLength: seq<nat>, entries: seq<Entry>, gains: seq<nat>,
        places: seq<nat>, more: seq<Entry>, moreGains: seq<nat>, morePlaces: seq<nat>)
    requires |perLength| == 3 && AtPlaces(demand, perLength, entries, gains, places)
    requires AtPlaces(demand, perLength, more, moreGains, morePlaces)
    ensures AtPlaces(demand, perLength, entries + more, gains + moreGains, places + morePlaces)
  {
    hide GainAt;
  }

  lemma {:induction false} TierAtPlaces(demand: seq<Entry>, perLength: seq<nat>, length: Length)
    requires |perLength| == 3
    ensures var tier := Tier(demand, length);
            AtPlaces(demand, perLength, tier, EvenSplit(GivenTo(perLength, length), |tier|), PlacesOf(demand, length))
  {
    TierAt(demand, length);
    hide PlacesOf, GainAt, Tier, EvenSplit, GivenTo;
    forall k | 0 <= k < |PlacesOf(demand, length)|
      ensures PlacesOf(demand, length)[k] < |demand|
      ensures Tier(demand, length)[k] == demand[PlacesOf(demand, length)[k]]
      ensures EvenSplit(GivenTo(perLength, length), |Tier(demand, length)|)[k]
           == GainAt(demand, perLength, PlacesOf(demand, length)[k])
    {
      TierGains(demand, perLength, length, k);
    }
  }

  /** The cells that are scored and what they gain, place by place. */
  lemma {:induction false} OrderedByPlace(demand: seq<Entry>, perLength: seq<nat>)
    requires |perLength| == 3
    ensures AtPlaces(demand, perLength, Ordered(demand, 3), Gains(demand, perLength, 3), Order(demand))
  {
    var a, b, c := PlacesOf(demand, Short), PlacesOf(demand, Medium), PlacesOf(demand, Long);
    var s, m, l := Tier(demand, Short), Tier(demand, Medium), Tier(demand, Long);
    var x, y, z := EvenSplit(perLength[0], |s|), EvenSplit(perLength[1], |m|), EvenSplit(perLength[2], |l|);
    ThreeTiers(demand, perLength);
    TierAtPlaces(demand, perLength, Short);
    TierAtPlaces(demand, perLength, Medium);
    TierAtPlaces(demand, perLength, Long);
    assert Order(demand) == a + b + c;
    hide AtPlaces, PlacesOf, Order, Ordered, Gains, GainAt, Tier, EvenSplit;
    PlacesConcat(demand, perLength, s, x, a, m, y, b);
    PlacesConcat(demand, perLength, s + m, x + y, a + b, l, z, c);
  }

  /** The cell of one place after an allocation: its share over the survival curve of its own
      size and its own gain. */
  ghost predicate CellAt(entry: Entry, gain: nat, survivals: map<nat, seq<real>>, cell: Cell) {
    entry.size + gain in survivals && cell == Cell(entry.share, survivals[entry.size + gain])
  }

  ghost predicate CellsByPlace(demand: seq<Entry>, survivals: map<nat, seq<real>>, perLength: seq<nat>, cells: seq<Cell>)
    requires |perLength| == 3
  {
    && |cells| == |Order(demand)|
    && forall i :: 0 <= i < |cells| ==>
         && Order(demand)[i] < |demand|
         && CellAt(demand[Order(demand)[i]], GainAt(demand, perLength, Order(demand)[i]), survivals, cells[i])
  }

  ghost predicate PairedWith(entries: seq<Entry>, gains: seq<nat>, survivals: map<nat, seq<real>>, cells: seq<Cell>) {
    |cells| == |entries| == |gains| && forall i :: 0 <= i < |cells| ==> CellAt(entries[i], gains[i], survivals, cells[i])
  }

  lemma {:induction false} ScoredArePaired(demand: seq<Entry>, perLength: seq<nat>, survivals: map<nat, seq<real>>,
        cells: seq<Cell>)
    requires |perLength| == 3
    ensures ScoredCells(demand, perLength, survivals, cells)
       <==> PairedWith(Ordered(demand, 3), Gains(demand, perLength, 3), survivals, cells)
  {
    hide Ordered, Gains;
  }

  lemma {:induction false} ScoredByPlace(demand: seq<Entry>, perLength: seq<nat>, survivals: map<nat, seq<real>>, cells: seq<Cell>)
    requires |perLength| == 3
    ensures ScoredCells(demand, perLength, survivals, cells) <==> CellsByPlace(demand, survivals, perLength, cells)
  {
    OrderedByPlace(demand, perLength);
    ScoredArePaired(demand, perLength, survivals, cells);
    hide Order, Ordered, Gains, GainAt, ScoredCells, CellAt;
  }

  /** A score is the truncated expectation of exactly those cells. */
  lemma {:induction false} ScoreByPlace(demand: seq<Entry>, survivals: map<nat, seq<real>>, horizon: int, split: Split)
    ensures Scores(demand, survivals, horizon, split)
       <==> && |split.perLength| == 3 && horizon >= 0
            && exists cells ::
                 && CellsByPlace(demand, survivals, split.perLength, cells)
                 && split.expected == RequestsBeforeMiss(BandCurve(cells, horizon))
                 && IsFirstLikely(BandCurve(cells, horizon), split.firstLikely)
  {
    if |split.perLength| == 3 {
      forall cells
        ensures ScoredCells(demand, split.perLength, survivals, cells)
           <==> CellsByPlace(demand, survivals, split.perLength, cells)
      {
        ScoredByPlace(demand, split.perLength, survivals, cells);
      }
    }
    hide ScoredCells, CellsByPlace, RequestsBeforeMiss, BandCurve, IsFirstLikely;
  }

  /** A chance that only falls is below one half from the first such request on and not before. */
  lemma {:induction false} LikelyFromThereOn(survival: seq<real>, first: FirstLikely)
    requires NonIncreasing(survival)
    ensures IsFirstLikely(survival, first)
       <==> match first
            case Never => forall m :: 0 <= m < |survival| ==> 1.0 - survival[m] <= survival[m]
            case After(n) =>
              && n < |survival|
              && forall m :: 0 <= m < |survival| ==> (1.0 - survival[m] > survival[m] <==> n <= m)
  {
    if first.After? && first.requests < |survival| {
      forall m | first.requests <= m < |survival|
        ensures survival[m] <= survival[first.requests]
      {
        FallsTo(survival, first.requests, m);
      }
    }
  }

  lemma {:induction false} FallsTo(survival: seq<real>, n: nat, m: nat)
    requires NonIncreasing(survival) && n <= m < |survival|
    ensures survival[m] <= survival[n]
  {
    if n < m {
      FallsTo(survival, n, m - 1);
    }
  }

  // ----- which of the best allocations -----

  /** The order of the tuples: by the first place where they differ. */
  predicate Less(a: seq<nat>, b: seq<nat>) {
    a != [] && b != [] && (a[0] < b[0] || (a[0] == b[0] && Less(a[1..], b[1..])))
  }

  ghost predicate Ascends(all: seq<seq<nat>>) {
    forall i, j :: 0 <= i < j < |all| ==> Less(all[i], all[j])
  }

  lemma {:induction false} PrefixedAscends(first: nat, rests: seq<seq<nat>>)
    requires Ascends(rests)
    ensures Ascends(Prefixed(first, rests))
  {
    var all := Prefixed(first, rests);
    forall i, j | 0 <= i < j < |all|
      ensures Less(all[i], all[j])
    {
      assert all[i][1..] == rests[i] && all[j][1..] == rests[j];
    }
  }

  lemma {:induction false} FromAscends(budget: nat, parts: nat, taken: nat)
    requires parts >= 2 && taken <= budget + 1
    ensures Ascends(AllocationsFrom(budget, parts, taken))
    ensures forall a :: a in AllocationsFrom(budget, parts, taken) ==> a != [] && a[0] >= taken
    decreases parts - 1, 1, budget + 1 - taken
  {
    if taken <= budget {
      var here, later := Prefixed(taken, Allocations(budget - taken, parts - 1)), AllocationsFrom(budget, parts, taken + 1);
      AllocationsAscend(budget - taken, parts - 1);
      PrefixedAscends(taken, Allocations(budget - taken, parts - 1));
      FromAscends(budget, parts, taken + 1);
      assert AllocationsFrom(budget, parts, taken) == here + later;
      hide Allocations, AllocationsFrom;
      forall i, j | 0 <= i < |here| && 0 <= j < |later|
        ensures Less(here[i], later[j])
      {
        assert later[j] in later;
      }
    }
  }

  /** The search goes through the tuples in ascending order. */
  lemma {:induction false} AllocationsAscend(budget: nat, parts: nat)
    requires parts >= 1
    ensures Ascends(Allocations(budget, parts))
    decreases parts, 0, 0
  {
    if parts > 1 {
      FromAscends(budget, parts, 0);
    }
  }

  /** Of the allocations that score best the search returns the least: no other one scores as
      well and gives fewer books to the first length at which the two differ. */
  lemma {:induction false} BestIsLeast(demand: seq<Entry>, survivals: map<nat, seq<real>>, horizon: int,
        budget: nat, best: Split, even: Split, other: Split)
    requires Optimal(demand, survivals, horizon, budget, best, even)
    requires Scores(demand, survivals, horizon, other) && Splits(other.perLength, budget, 3)
    ensures other.expected < best.expected || other.perLength == best.perLength || Less(best.perLength, other.perLength)
  {
    hide Scores, Allocations, EvenSplit, Splits, Less;
    var all := Allocations(budget, 3);
    AllocationsExact(budget, 3, other.perLength);
    AllocationsAscend(budget, 3);
    BestBeatsEverySplit(demand, survivals, horizon, budget, best, even, other);
    var i :| 0 <= i < |all| && all[i] == other.perLength;
  }
}
