/** The scores of `scripts/check_decision_overlap.py` in terms of what the options declare:
    which signature field each axis reads, and what its rates attest. */
module OverlapScores {
  import opened Collections
  import opened Matching
  import opened DecisionOverlap

  // ----- one fork -----

  ghost function Column(fork: Fork, of: Signature -> Option<string>): (column: seq<Option<string>>)
    ensures |column| == |fork| && forall i :: 0 <= i < |fork| ==> column[i] == of(fork[i].sig)
  {
    seq(|fork|, i requires 0 <= i < |fork| => of(fork[i].sig))
  }

  /** The ids under which both forks declare the same. */
  ghost function AgreeingIds(left: Fork, right: Fork, of: Signature -> Option<string>): set<string> {
    set i, j | 0 <= i < |left| && 0 <= j < |right| && left[i].id == right[j].id && of(left[i].sig) == of(right[j].sig)
      :: left[i].id
  }

  /** How many options of a fork agree in what `of` reads: by id where the ids align, else
      the size of the intersection of what the two sides declare. */
  ghost function Agreements(left: Fork, right: Fork, of: Signature -> Option<string>): nat {
    if Aligned(left, right) then |AgreeingIds(left, right, of)|
    else |multiset(Column(left, of)) * multiset(Column(right, of))|
  }

  lemma {:induction false} HitsRead(left: Fork, right: Fork, field: Field, of: Signature -> Option<string>)
    requires UniqueIds(left) && UniqueIds(right) && forall sig :: Get(sig, field) == of(sig)
    ensures Hits(left, right, field) == Agreements(left, right, of)
  {
    assert Values(left, field) == Column(left, of) && Values(right, field) == Column(right, of);
    AlignedHitsCountIds(left, right, field);
    forall id
      ensures id in HitIds(left, right, field) <==> id in AgreeingIds(left, right, of)
    {
      HitIdAgrees(left, right, field, of, id);
    }
    assert HitIds(left, right, field) == AgreeingIds(left, right, of);
    hide HitIds, AgreeingIds, Aligned, Values, Column, AlignedHits, Get;
  }

  lemma {:induction false} HitIdAgrees(left: Fork, right: Fork, field: Field, of: Signature -> Option<string>, id: string)
    requires UniqueIds(left) && UniqueIds(right) && forall sig :: Get(sig, field) == of(sig)
    ensures id in HitIds(left, right, field) <==> id in AgreeingIds(left, right, of)
  {
    hide Get;
    LookupAt(right, id, field);
    if id in HitIds(left, right, field) {
      var i :| 0 <= i < |left| && left[i].id == id && Lookup(right, left[i].id, field) == Some(Get(left[i].sig, field));
      var j := FindId(right, id, field);
      assert left[i].id == right[j].id && of(left[i].sig) == of(right[j].sig);
    }
    if id in AgreeingIds(left, right, of) {
      var i, j :| 0 <= i < |left| && 0 <= j < |right| && left[i].id == right[j].id
        && of(left[i].sig) == of(right[j].sig) && left[i].id == id;
      assert Lookup(right, id, field) == Some(Get(right[j].sig, field));
    }
  }

  /** What each axis counts: the options that agree in family, in tradeoff, in consequence,
      or in what they ask. */
  lemma {:induction false} HitsCount(left: Fork, right: Fork)
    requires UniqueIds(left) && UniqueIds(right)
    ensures Hits(left, right, Family) == Agreements(left, right, (sig: Signature) => sig.family)
    ensures Hits(left, right, Tradeoff) == Agreements(left, right, (sig: Signature) => sig.tradeoff)
    ensures Hits(left, right, Consequence) == Agreements(left, right, (sig: Signature) => sig.consequence)
    ensures Hits(left, right, Act) == Agreements(left, right, (sig: Signature) => Some(NormalizedAct(sig)))
  {
    hide Hits, Agreements;
    HitsRead(left, right, Family, (sig: Signature) => sig.family);
    HitsRead(left, right, Tradeoff, (sig: Signature) => sig.tradeoff);
    HitsRead(left, right, Consequence, (sig: Signature) => sig.consequence);
    HitsRead(left, right, Act, (sig: Signature) => Some(NormalizedAct(sig)));
  }

  /** The tradeoff comes last and may hold anything. */
  predicate BarFree(sig: Signature) {
    '|' !in OrEmpty(sig.family) && '|' !in OrEmpty(sig.target)
  }

  lemma {:induction false} FirstBar(a: string, rest: string, b: string, more: string)
    requires '|' !in a && '|' !in b && a + "|" + rest == b + "|" + more
    ensures a == b && rest == more
  {
    BeforeBarOf(a, rest);
    BeforeBarOf(b, more);
    assert (a + "|" + rest)[|a| + 1..] == rest && (b + "|" + more)[|b| + 1..] == more;
  }

  /** Without bars in family and target, two options ask the same act exactly when they have the same family, the
      same target and the same tradeoff, a missing one being as good as an empty one. */
  lemma {:induction false} SameActIff(s: Signature, t: Signature)
    requires BarFree(s) && BarFree(t)
    ensures NormalizedAct(s) == NormalizedAct(t) <==>
              && OrEmpty(s.family) == OrEmpty(t.family)
              && OrEmpty(s.target) == OrEmpty(t.target)
              && OrEmpty(s.tradeoff) == OrEmpty(t.tradeoff)
    ensures forall sig :: (OrEmpty(sig) == "" <==> sig.None? || sig.value == "") && (sig.Some? ==> OrEmpty(sig) == sig.value)
  {
    var a, b, c := OrEmpty(s.family), OrEmpty(s.target), OrEmpty(s.tradeoff);
    var x, y, z := OrEmpty(t.family), OrEmpty(t.target), OrEmpty(t.tradeoff);
    assert NormalizedAct(s) == a + "|" + (b + "|" + c) && NormalizedAct(t) == x + "|" + (y + "|" + z);
    if NormalizedAct(s) == NormalizedAct(t) {
      FirstBar(a, b + "|" + c, x, y + "|" + z);
      FirstBar(b, c, y, z);
    }
  }

  ghost predicate Unique(pairs: seq<Pair>) {
    forall i :: 0 <= i < |pairs| ==> UniqueIds(pairs[i].left) && UniqueIds(pairs[i].right)
  }

  /** The whole of a fork agrees. */
  ghost predicate WhollyAgrees(p: Pair, of: Signature -> Option<string>) {
    |p.left| == |p.right| == Agreements(p.left, p.right, of)
  }

  ghost function TotalAgreements(pairs: seq<Pair>, of: Signature -> Option<string>): nat {
    if |pairs| == 0 then 0
    else
      var p := pairs[|pairs| - 1];
      TotalAgreements(pairs[..|pairs| - 1], of) + Agreements(p.left, p.right, of)
  }

  /** An agreement uses up an option on either side. */
  lemma {:induction false} AgreementsBound(left: Fork, right: Fork, of: Signature -> Option<string>)
    requires UniqueIds(left) && UniqueIds(right)
    ensures Agreements(left, right, of) <= |left| && Agreements(left, right, of) <= |right|
  {
    if Aligned(left, right) {
      IdsAtMost(left, AgreeingIds(left, right, of));
      IdsAtMost(right, AgreeingIds(left, right, of));
    } else {
      SubsetSmaller(multiset(Column(left, of)) * multiset(Column(right, of)), multiset(Column(left, of)));
      SubsetSmaller(multiset(Column(left, of)) * multiset(Column(right, of)), multiset(Column(right, of)));
    }
  }

  lemma {:induction false} IdsAtMost(fork: Fork, ids: set<string>)
    requires forall id :: id in ids ==> HasId(fork, id)
    ensures |ids| <= |fork|
  {
    if fork == [] {
      assert ids == {};
    } else {
      var rest := ids - {fork[0].id};
      forall id | id in rest
        ensures HasId(fork[1..], id)
      {
        var i :| 0 <= i < |fork| && fork[i].id == id;
        assert fork[1..][i - 1].id == id;
      }
      IdsAtMost(fork[1..], rest);
      assert ids <= rest + {fork[0].id};
      SubsetOf(ids, rest + {fork[0].id});
    }
  }

  lemma {:induction false} SubsetOf(a: set<string>, b: set<string>)
    requires a <= b
    ensures |a| <= |b|
  {
    if a != {} {
      var x :| x in a;
      SubsetOf(a - {x}, b - {x});
    }
  }

  lemma {:induction false} TotalsRead(pairs: seq<Pair>, field: Field, of: Signature -> Option<string>)
    requires Unique(pairs)
    requires forall p: Pair :: UniqueIds(p.left) && UniqueIds(p.right)
               ==> Hits(p.left, p.right, field) == Agreements(p.left, p.right, of)
    ensures TotalHits(pairs, field) == TotalAgreements(pairs, of)
    ensures TotalAgreements(pairs, of) <= TotalOptions(pairs)
    ensures TotalAgreements(pairs, of) == TotalOptions(pairs) <==> forall i :: 0 <= i < |pairs| ==> WhollyAgrees(pairs[i], of)
    ensures TotalAgreements(pairs, of) == 0
       <==> forall i :: 0 <= i < |pairs| ==> Agreements(pairs[i].left, pairs[i].right, of) == 0
  {
    hide Hits, Agreements, UniqueIds;
    if |pairs| > 0 {
      var m := |pairs| - 1;
      var less, p := pairs[..m], pairs[m];
      assert Unique(less);
      TotalsRead(less, field, of);
      assert UniqueIds(p.left) && UniqueIds(p.right);
      AgreementsBound(p.left, p.right, of);
      assert pairs == less + [p];
    }
  }

  /** A mean rate of an axis: the agreements of that axis over the options of the larger
      sides, one exactly when every fork agrees throughout, zero exactly when none does. */
  ghost predicate IsMeanRate(rate: real, pairs: seq<Pair>, of: Signature -> Option<string>) {
    && rate == Quotient(TotalAgreements(pairs, of), TotalOptions(pairs))
    && (rate == 1.0 <==> forall i :: 0 <= i < |pairs| ==> WhollyAgrees(pairs[i], of))
    && (rate == 0.0 <==> forall i :: 0 <= i < |pairs| ==> Agreements(pairs[i].left, pairs[i].right, of) == 0)
  }

  lemma QuotientEnds(x: nat, y: nat)
    requires x <= y && y > 0
    ensures (Quotient(x, y) == 1.0 <==> x == y) && (Quotient(x, y) == 0.0 <==> x == 0)
  {
    assert Quotient(x, y) * y as real == x as real;
  }

  lemma {:induction false} MeanRate(pairs: seq<Pair>, field: Field, of: Signature -> Option<string>)
    requires Unique(pairs) && Decisions(pairs) && |pairs| > 0
    requires forall p: Pair :: UniqueIds(p.left) && UniqueIds(p.right)
               ==> Hits(p.left, p.right, field) == Agreements(p.left, p.right, of)
    ensures IsMeanRate(Quotient(TotalHits(pairs, field), TotalOptions(pairs)), pairs, of)
  {
    TotalsRead(pairs, field, of);
    OptionsPositive(pairs);
    hide Quotient, TotalHits, TotalAgreements, TotalOptions, Hits, Agreements, UniqueIds, WhollyAgrees;
    QuotientEnds(TotalAgreements(pairs, of), TotalOptions(pairs));
  }

  /** The scores of a comparison, each in terms of what the options themselves declare. */
  lemma {:induction false} ScoresMean(pairs: seq<Pair>)
    requires Unique(pairs) && Decisions(pairs) && |pairs| > 0
    ensures var scores := Score(pairs);
            && scores.forks == |pairs|
            && scores.sameDecisions == TotalAgreements(pairs, (sig: Signature) => Some(NormalizedAct(sig)))
            && IsMeanRate(scores.familyRate, pairs, (sig: Signature) => sig.family)
            && IsMeanRate(scores.tradeoffRate, pairs, (sig: Signature) => sig.tradeoff)
            && IsMeanRate(scores.consequenceRate, pairs, (sig: Signature) => sig.consequence)
  {
    forall p: Pair | UniqueIds(p.left) && UniqueIds(p.right)
      ensures Hits(p.left, p.right, Family) == Agreements(p.left, p.right, (sig: Signature) => sig.family)
      ensures Hits(p.left, p.right, Tradeoff) == Agreements(p.left, p.right, (sig: Signature) => sig.tradeoff)
      ensures Hits(p.left, p.right, Consequence) == Agreements(p.left, p.right, (sig: Signature) => sig.consequence)
      ensures Hits(p.left, p.right, Act) == Agreements(p.left, p.right, (sig: Signature) => Some(NormalizedAct(sig)))
    {
      HitsCount(p.left, p.right);
    }
    hide Hits, Agreements, UniqueIds, IsMeanRate, TotalHits, TotalOptions, TotalAgreements, WorstFork, SequenceMatches, Quotient,
        NormalizedAct;
    TotalsRead(pairs, Act, (sig: Signature) => Some(NormalizedAct(sig)));
    MeanRate(pairs, Family, (sig: Signature) => sig.family);
    MeanRate(pairs, Tradeoff, (sig: Signature) => sig.tradeoff);
    MeanRate(pairs, Consequence, (sig: Signature) => sig.consequence);
  }

  /** The worst rates: each the highest of its own axis, at the first fork that has it. */
  ghost predicate IsWorstRate(w: Worst, pairs: seq<Pair>, of: Signature -> Option<string>) {
    && (forall i :: 0 <= i < |pairs| ==> ForkRate(pairs[i], of) <= w.rate)
    && (w.rate == 0.0 ==> w.node == "")
    && (w.rate != 0.0 ==> exists i :: 0 <= i < |pairs| && FirstAtRate(pairs, of, w, i))
  }

  ghost predicate FirstAtRate(pairs: seq<Pair>, of: Signature -> Option<string>, w: Worst, i: nat)
    requires i < |pairs|
  {
    && pairs[i].node == w.node && ForkRate(pairs[i], of) == w.rate
    && forall j :: 0 <= j < i ==> ForkRate(pairs[j], of) < w.rate
  }

  ghost function ForkRate(p: Pair, of: Signature -> Option<string>): real {
    Quotient(Agreements(p.left, p.right, of), MaxOptions(p.left, p.right))
  }

  lemma {:induction false} WorstRate(pairs: seq<Pair>, field: Field, of: Signature -> Option<string>)
    requires Unique(pairs)
    requires forall p: Pair :: UniqueIds(p.left) && UniqueIds(p.right)
               ==> Hits(p.left, p.right, field) == Agreements(p.left, p.right, of)
    ensures IsWorstRate(WorstFork(pairs, field), pairs, of)
  {
    var w := WorstFork(pairs, field);
    WorstBounds(pairs, field);
    hide Hits, Agreements, WorstFork, Quotient, MaxOptions;
    forall i | 0 <= i < |pairs|
      ensures Rate(pairs[i], field) == ForkRate(pairs[i], of)
    {
      assert UniqueIds(pairs[i].left) && UniqueIds(pairs[i].right);
    }
    hide UniqueIds;
    if w.rate != 0.0 {
      var i := WorstReached(pairs, field);
      hide Rate, ForkRate;
      assert FirstAtRate(pairs, of, w, i);
    }
  }

  lemma {:induction false} WorstScoresMean(pairs: seq<Pair>)
    requires Unique(pairs)
    ensures IsWorstRate(Score(pairs).worstFamily, pairs, (sig: Signature) => sig.family)
    ensures IsWorstRate(Score(pairs).worstTradeoff, pairs, (sig: Signature) => sig.tradeoff)
    ensures IsWorstRate(Score(pairs).worstConsequence, pairs, (sig: Signature) => sig.consequence)
  {
    forall p: Pair | UniqueIds(p.left) && UniqueIds(p.right)
      ensures Hits(p.left, p.right, Family) == Agreements(p.left, p.right, (sig: Signature) => sig.family)
      ensures Hits(p.left, p.right, Tradeoff) == Agreements(p.left, p.right, (sig: Signature) => sig.tradeoff)
      ensures Hits(p.left, p.right, Consequence) == Agreements(p.left, p.right, (sig: Signature) => sig.consequence)
    {
      HitsCount(p.left, p.right);
    }
    hide Hits, Agreements, UniqueIds, IsWorstRate, TotalHits, TotalOptions, WorstFork, SequenceMatches, Quotient;
    WorstRate(pairs, Family, (sig: Signature) => sig.family);
    WorstRate(pairs, Tradeoff, (sig: Signature) => sig.tradeoff);
    WorstRate(pairs, Consequence, (sig: Signature) => sig.consequence);
  }

  /** The sequence rate is one exactly when at every fork both sides name the same families
      equally often, a missing family counting as an empty one. */
  lemma {:induction false} SequenceRateIsOneIff(pairs: seq<Pair>)
    requires |pairs| > 0
    ensures SequenceMatches(pairs) <= |pairs|
    ensures Score(pairs).sequenceRate == 1.0 <==> forall i :: 0 <= i < |pairs| ==> SameFamilyCounts(pairs[i])
  {
    AllSequencesMatch(pairs);
    hide TotalOptions, TotalHits, WorstFork, SequenceMatches, Quotient;
    QuotientEnds(SequenceMatches(pairs), |pairs|);
  }

  ghost function DeclaredAt(fork: Fork, family: Option<string>): set<nat> {
    set i: nat | i < |fork| && fork[i].sig.family == family
  }

  ghost function NamedTimes(fork: Fork, family: string): nat {
    |DeclaredAt(fork, Some(family))| + if family == "" then |DeclaredAt(fork, None)| else 0
  }

  lemma {:induction false} DeclaredStep(fork: Fork, family: Option<string>)
    requires |fork| > 0
    ensures var m := |fork| - 1;
            |DeclaredAt(fork, family)| == |DeclaredAt(fork[..m], family)| + if fork[m].sig.family == family then 1 else 0
  {
    var m := |fork| - 1;
    var before := DeclaredAt(fork[..m], family);
    assert DeclaredAt(fork, family) == if fork[m].sig.family == family then before + {m} else before;
  }

  ghost predicate SameFamilyCounts(p: Pair) {
    forall family :: NamedTimes(p.left, family) == NamedTimes(p.right, family)
  }

  lemma {:induction false} FamiliesCounted(fork: Fork, family: string)
    ensures multiset(Families(fork))[family] == NamedTimes(fork, family)
  {
    if fork == [] {
      assert forall f :: DeclaredAt(fork, f) == {};
    } else {
      var m := |fork| - 1;
      FamiliesCounted(fork[..m], family);
      DeclaredStep(fork, Some(family));
      DeclaredStep(fork, None);
      assert Families(fork) == Families(fork[..m]) + [OrEmpty(fork[m].sig.family)];
      hide DeclaredAt, Families;
    }
  }

  lemma {:induction false} SameFamiliesCounted(p: Pair)
    ensures SameFamilies(p) <==> SameFamilyCounts(p)
  {
    hide NamedTimes, Families;
    forall family
      ensures multiset(Families(p.left))[family] == NamedTimes(p.left, family)
      ensures multiset(Families(p.right))[family] == NamedTimes(p.right, family)
    {
      FamiliesCounted(p.left, family);
      FamiliesCounted(p.right, family);
    }
    if SameFamilyCounts(p) {
      assert forall family :: multiset(Families(p.left))[family] == multiset(Families(p.right))[family];
    }
  }

  lemma {:induction false} AllSequencesMatch(pairs: seq<Pair>)
    ensures SequenceMatches(pairs) <= |pairs|
    ensures SequenceMatches(pairs) == |pairs| <==> forall i :: 0 <= i < |pairs| ==> SameFamilyCounts(pairs[i])
  {
    hide SameFamilies, SameFamilyCounts;
    if |pairs| > 0 {
      var m := |pairs| - 1;
      AllSequencesMatch(pairs[..m]);
      SameFamiliesCounted(pairs[m]);
      assert pairs == pairs[..m] + [pairs[m]];
    }
  }

  /** The forks at which both sides name the same families equally often. */
  ghost function Agreeing(pairs: seq<Pair>): (forks: set<nat>) {
    set i: nat | i < |pairs| && SameFamilyCounts(pairs[i])
  }

  lemma {:induction false} SequencesCounted(pairs: seq<Pair>)
    ensures SequenceMatches(pairs) == |Agreeing(pairs)|
  {
    hide SameFamilies, SameFamilyCounts;
    if |pairs| > 0 {
      var m := |pairs| - 1;
      SequencesCounted(pairs[..m]);
      SameFamiliesCounted(pairs[m]);
      assert Agreeing(pairs) == if SameFamilyCounts(pairs[m]) then Agreeing(pairs[..m]) + {m} else Agreeing(pairs[..m]);
    }
  }

  /** The sequence rate is the share of the forks that agree in this way. */
  lemma {:induction false} SequenceRateCounts(pairs: seq<Pair>)
    requires |pairs| > 0
    ensures Score(pairs).sequenceRate * |pairs| as real == |Agreeing(pairs)| as real
  {
    SequencesCounted(pairs);
    hide TotalOptions, TotalHits, WorstFork, SequenceMatches, Agreeing;
    QuotientTimes(SequenceMatches(pairs), |pairs|);
  }

  lemma QuotientTimes(x: nat, y: nat)
    requires y > 0
    ensures Quotient(x, y) * y as real == x as real
  {
  }

  // ----- when ids pair two forks up -----

  function Ids(fork: Fork): (ids: set<string>) {
    set i | 0 <= i < |fork| :: fork[i].id
  }

  lemma {:induction false} IdsAre(fork: Fork)
    ensures forall id :: id in Ids(fork) <==> HasId(fork, id)
  {
  }

  lemma {:induction false} OneMoreId(fork: Fork)
    requires fork != []
    ensures Ids(fork) == Ids(fork[..|fork| - 1]) + {fork[|fork| - 1].id}
  {
  }

  lemma {:induction false} UniqueStep(fork: Fork)
    requires fork != []
    ensures var m := |fork| - 1;
            UniqueIds(fork) <==> UniqueIds(fork[..m]) && !HasId(fork[..m], fork[m].id)
  {
    var m := |fork| - 1;
    assert forall i :: 0 <= i < m ==> fork[..m][i] == fork[i];
    if UniqueIds(fork[..m]) && !HasId(fork[..m], fork[m].id) {
      forall i, j | 0 <= i < j < |fork|
        ensures fork[i].id != fork[j].id
      {
        assert fork[..m][i] == fork[i];
      }
    }
  }

  lemma {:induction false} IdsFit(fork: Fork)
    ensures |Ids(fork)| <= |fork|
    ensures |Ids(fork)| == |fork| <==> UniqueIds(fork)
  {
    if fork == [] {
      assert Ids(fork) == {};
    } else {
      var m := |fork| - 1;
      IdsFit(fork[..m]);
      IdsAre(fork[..m]);
      OneMoreId(fork);
      UniqueStep(fork);
      hide Ids, UniqueIds, HasId;
    }
  }

  lemma Filled(a: set<string>, b: set<string>)
    requires a <= b && |a| >= |b|
    ensures a == b
  {
    if x :| x in b && x !in a {
      assert a <= b - {x};
      Within(a, b - {x});
    }
  }

  lemma Within(a: set<string>, b: set<string>)
    requires a <= b
    ensures |a| <= |b|
  {
    assert b == a + (b - a);
  }

  /** Ids pair two forks up exactly when both are non-empty, neither repeats an id, and they
      name the same ids: then each choice has one partner. */
  lemma {:induction false} AlignedIff(left: Fork, right: Fork)
    ensures Aligned(left, right)
       <==> left != [] && UniqueIds(left) && UniqueIds(right) && forall id :: HasId(left, id) <==> HasId(right, id)
  {
    IdsFit(left);
    IdsFit(right);
    IdsAre(left);
    IdsAre(right);
    var l, r, shared := Ids(left), Ids(right), SharedIds(left, right);
    assert shared == l * r;
    hide UniqueIds, Ids, SharedIds;
    Within(shared, l);
    Within(shared, r);
    if Aligned(left, right) {
      Filled(shared, l);
      Filled(shared, r);
    }
    if left != [] && UniqueIds(left) && UniqueIds(right) && forall id :: HasId(left, id) <==> HasId(right, id) {
      assert l == r == shared;
      assert |l| == |left| > 0;
    }
    hide HasId;
  }
}
