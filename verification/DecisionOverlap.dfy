/** The decision-overlap comparison of `scripts/check_decision_overlap.py`. */
module DecisionOverlap {
  import opened Collections
  import opened Matching
  import opened StringOrder

  /** A declared choice's signature; a field the contract omits is `None`. */
  datatype Signature = Signature(
    family: Option<string>, target: Option<string>, tradeoff: Option<string>, consequence: Option<string>)

  datatype Field = Act | Family | Tradeoff | Consequence

  datatype Choice = Choice(id: string, sig: Signature)

  /** A fork's signatures by choice id, in declaration order. */
  type Fork = seq<Choice>

  /** The forks of one contract that declare anything. */
  type Program = map<string, Fork>

  function OrEmpty(field: Option<string>): string {
    if field.None? then "" else field.value
  }

  /** The normalized act: family, target and tradeoff joined by bars. */
  function NormalizedAct(sig: Signature): string {
    OrEmpty(sig.family) + "|" + OrEmpty(sig.target) + "|" + OrEmpty(sig.tradeoff)
  }

  function Get(sig: Signature, field: Field): Option<string> {
    match field
    case Act => Some(NormalizedAct(sig))
    case Family => sig.family
    case Tradeoff => sig.tradeoff
    case Consequence => sig.consequence
  }

  function Values(fork: Fork, field: Field): seq<Option<string>> {
    seq(|fork|, i requires 0 <= i < |fork| => Get(fork[i].sig, field))
  }

  predicate UniqueIds(fork: Fork) {
    forall i, j :: 0 <= i < j < |fork| ==> fork[i].id != fork[j].id
  }

  predicate HasId(fork: Fork, id: string) {
    exists i :: 0 <= i < |fork| && fork[i].id == id
  }

  /** The choices of `left` whose id `right` also declares. */
  function SharedIds(left: Fork, right: Fork): set<string> {
    set i | 0 <= i < |left| && HasId(right, left[i].id) :: left[i].id
  }

  /** The forks name the same choices, so ids pair them up. */
  predicate Aligned(left: Fork, right: Fork) {
    var shared := SharedIds(left, right);
    shared != {} && |shared| == if |left| >= |right| then |left| else |right|
  }

  function Lookup(fork: Fork, id: string, field: Field): Option<Option<string>>
  {
    if |fork| == 0 then None
    else if fork[0].id == id then Some(Get(fork[0].sig, field))
    else Lookup(fork[1..], id, field)
  }

  /** How many ids carry equal values in both forks. */
  function AlignedHits(left: Fork, right: Fork, field: Field): nat {
    if |left| == 0 then 0
    else
      AlignedHits(left[1..], right, field)
      + if Lookup(right, left[0].id, field) == Some(Get(left[0].sig, field)) then 1 else 0
  }

  /** The hits of one fork, without the search. */
  ghost function Hits(left: Fork, right: Fork, field: Field): nat {
    if Aligned(left, right) then AlignedHits(left, right, field)
    else Common(Values(left, field), Values(right, field))
  }

  method BestAlignment(left: Fork, right: Fork, field: Field) returns (best: nat)
    ensures best == Hits(left, right, field)
  {
    if Aligned(left, right) {
      return AlignedHits(left, right, field);
    }
    var l, r := Values(left, field), Values(right, field);
    if |l| == 0 || |r| == 0 {
      assert multiset(l) * multiset(r) == multiset{};
      return 0;
    }
    if |l| > |r| {
      CommonSymmetric(l, r);
      l, r := r, l;
    }
    best := BestOverArrangements(l, r);
  }

  lemma {:induction false} CommonSymmetric<T>(l: seq<T>, r: seq<T>)
    ensures Common(l, r) == Common(r, l)
  {
    assert multiset(l) * multiset(r) == multiset(r) * multiset(l);
  }

  // ----- the id-aligned shortcut -----

  lemma {:induction false} LookupAt(fork: Fork, id: string, field: Field)
    ensures Lookup(fork, id, field).Some? <==> HasId(fork, id)
    ensures forall i :: 0 <= i < |fork| && fork[i].id == id && UniqueIds(fork)
              ==> Lookup(fork, id, field) == Some(Get(fork[i].sig, field))
  {
    if |fork| > 0 {
      LookupAt(fork[1..], id, field);
      assert HasId(fork, id) <==> fork[0].id == id || HasId(fork[1..], id) by {
        if i :| 0 <= i < |fork| && fork[i].id == id && i > 0 {
          assert fork[1..][i - 1].id == id;
        }
        if i :| 0 <= i < |fork[1..]| && fork[1..][i].id == id {
          assert fork[i + 1].id == id;
        }
      }
      forall i | 0 <= i < |fork| && fork[i].id == id && UniqueIds(fork)
        ensures Lookup(fork, id, field) == Some(Get(fork[i].sig, field))
      {
        if i > 0 {
          assert fork[1..][i - 1].id == id;
        }
      }
    }
  }

  lemma {:induction false} ValuesRest(fork: Fork, i: nat, field: Field)
    requires i < |fork|
    ensures Values(fork, field)[i] == Get(fork[i].sig, field)
    ensures Values(fork[1..], field) == Values(fork, field)[1..]
    ensures Values(Without(fork, i), field) == Without(Values(fork, field), i)
    ensures |Values(fork, field)| == |fork|
  {
  }

  lemma {:induction false} FindId(fork: Fork, id: string, field: Field) returns (i: nat)
    requires UniqueIds(fork) && Lookup(fork, id, field).Some?
    ensures i < |fork| && fork[i].id == id && Lookup(fork, id, field) == Some(Get(fork[i].sig, field))
  {
    LookupAt(fork, id, field);
    i :| 0 <= i < |fork| && fork[i].id == id;
  }

  lemma {:induction false} RestIds(left: Fork)
    requires UniqueIds(left) && |left| > 0
    ensures UniqueIds(left[1..]) && forall j :: 0 <= j < |left[1..]| ==> left[1..][j].id != left[0].id
  {
  }

  /** Pairing by id is one pairing among all, so it never beats the best. */
  lemma {:induction false} AlignedAtMostCommon(left: Fork, right: Fork, field: Field)
    requires UniqueIds(left) && UniqueIds(right)
    ensures AlignedHits(left, right, field) <= Common(Values(left, field), Values(right, field))
    decreases |left|
  {
    hide Values, UniqueIds, Common, Lookup, Without, Get;
    if |left| > 0 {
      var l, r := Values(left, field), Values(right, field);
      ValuesRest(left, 0, field);
      RestIds(left);
      if Lookup(right, left[0].id, field).None? {
        AlignedAtMostCommon(left[1..], right, field);
        SplitFirst(l);
        CommonMonotone(l[1..], r, l, r);
      } else {
        var i := FindId(right, left[0].id, field);
        ValuesRest(right, i, field);
        UnusedId(left[1..], right, i, field);
        AlignedAtMostCommon(left[1..], Without(right, i), field);
        if r[i] == l[0] {
          CommonTake(l, r, i);
        } else {
          CommonAtMost(l, r, i);
        }
      }
    }
  }

  /** A choice of `right` whose id `left` does not use can be dropped. */
  lemma {:induction false} UnusedId(left: Fork, right: Fork, i: nat, field: Field)
    requires i < |right| && UniqueIds(right) && forall j :: 0 <= j < |left| ==> left[j].id != right[i].id
    ensures UniqueIds(Without(right, i))
    ensures AlignedHits(left, right, field) == AlignedHits(left, Without(right, i), field)
  {
    if |left| > 0 {
      UnusedId(left[1..], right, i, field);
      LookupWithout(right, i, left[0].id, field);
    }
  }

  lemma {:induction false} LookupWithout(right: Fork, i: nat, id: string, field: Field)
    requires i < |right| && right[i].id != id
    ensures Lookup(right, id, field) == Lookup(Without(right, i), id, field)
  {
    if i > 0 {
      LookupWithout(right[1..], i - 1, id, field);
      assert Without(right, i)[1..] == Without(right[1..], i - 1);
    } else {
      assert Without(right, 0) == right[1..];
    }
  }

  function Plain(family: string): Signature {
    Signature(Some(family), Some("t"), Some("x"), Some("y"))
  }

  // ----- when the shortcut does reach the maximum -----

  /** The option with this id on the other side carries the same value. */
  predicate Kept(choice: Choice, other: Fork, field: Field) {
    Lookup(other, choice.id, field) == Some(Get(choice.sig, field))
  }

  /** The values of the options whose own namesake carries another value, or is missing. */
  function Missed(fork: Fork, other: Fork, field: Field): seq<Option<string>> {
    if |fork| == 0 then []
    else (if Kept(fork[0], other, field) then [] else [Get(fork[0].sig, field)]) + Missed(fork[1..], other, field)
  }

  /** A left and a right option carry one value while each differs from its own namesake. */
  predicate Crossed(left: Fork, right: Fork, field: Field) {
    exists i, j :: 0 <= i < |left| && 0 <= j < |right| && CrossedAt(left, right, field, i, j)
  }

  predicate CrossedAt(left: Fork, right: Fork, field: Field, i: nat, j: nat)
    requires i < |left| && j < |right|
  {
    && Get(left[i].sig, field) == Get(right[j].sig, field)
    && !Kept(left[i], right, field) && !Kept(right[j], left, field)
  }

  lemma {:induction false} MissedMembers(fork: Fork, other: Fork, field: Field, value: Option<string>)
    ensures value in Missed(fork, other, field)
       <==> exists i :: 0 <= i < |fork| && Get(fork[i].sig, field) == value && !Kept(fork[i], other, field)
  {
    hide Get, Kept;
    if |fork| > 0 {
      MissedMembers(fork[1..], other, field, value);
      if i :| 0 <= i < |fork| && Get(fork[i].sig, field) == value && !Kept(fork[i], other, field) && i > 0 {
        assert fork[1..][i - 1] == fork[i];
      }
      if i :| 0 <= i < |fork[1..]| && Get(fork[1..][i].sig, field) == value && !Kept(fork[1..][i], other, field) {
        assert fork[1..][i] == fork[i + 1];
      }
    }
  }

  lemma {:induction false} MissedAlike(fork: Fork, other: Fork, another: Fork, field: Field)
    requires forall j :: 0 <= j < |fork| ==> Kept(fork[j], other, field) == Kept(fork[j], another, field)
    ensures Missed(fork, other, field) == Missed(fork, another, field)
  {
    hide Get, Kept;
    if |fork| > 0 {
      MissedAlike(fork[1..], other, another, field);
    }
  }

  /** An option whose namesake agrees is not missed. */
  lemma {:induction false} MissedWithout(fork: Fork, other: Fork, i: nat, field: Field)
    requires i < |fork| && Kept(fork[i], other, field)
    ensures Missed(fork, other, field) == Missed(Without(fork, i), other, field)
  {
    hide Get, Kept;
    if i == 0 {
      assert Without(fork, 0) == fork[1..];
    } else {
      MissedWithout(fork[1..], other, i - 1, field);
      assert Without(fork, i)[1..] == Without(fork[1..], i - 1);
    }
  }

  lemma {:induction false} NothingKept(fork: Fork, field: Field)
    ensures Missed(fork, [], field) == Values(fork, field)
  {
    hide Get;
    if |fork| > 0 {
      NothingKept(fork[1..], field);
      ValuesRest(fork, 0, field);
    }
  }

  lemma {:induction false} KeptWithout(choice: Choice, other: Fork, i: nat, field: Field)
    requires i < |other| && other[i].id != choice.id
    ensures Kept(choice, other, field) == Kept(choice, Without(other, i), field)
  {
    LookupWithout(other, i, choice.id, field);
  }

  /** Dropping a kept pair from both sides leaves what each side misses. */
  lemma {:induction false} DropKept(left: Fork, right: Fork, i: nat, field: Field)
    requires UniqueIds(left) && UniqueIds(right) && |left| > 0 && i < |right|
    requires right[i].id == left[0].id && Get(right[i].sig, field) == Get(left[0].sig, field)
    ensures Missed(left, right, field) == Missed(left[1..], Without(right, i), field)
    ensures Missed(right, left, field) == Missed(Without(right, i), left[1..], field)
  {
    hide Get, Without;
    LookupAt(right, left[0].id, field);
    forall j | 0 <= j < |left[1..]|
      ensures Kept(left[1..][j], right, field) == Kept(left[1..][j], Without(right, i), field)
    {
      KeptWithout(left[1..][j], right, i, field);
    }
    MissedAlike(left[1..], right, Without(right, i), field);
    MissedWithout(right, left, i, field);
    forall j | 0 <= j < |Without(right, i)|
      ensures Kept(Without(right, i)[j], left, field) == Kept(Without(right, i)[j], left[1..], field)
    {
      OtherIds(right, i, j);
    }
    MissedAlike(Without(right, i), left, left[1..], field);
  }

  lemma {:induction false} OtherIds(fork: Fork, i: nat, j: nat)
    requires UniqueIds(fork) && i < |fork| && j < |fork| - 1
    ensures Without(fork, i)[j].id != fork[i].id
  {
  }

  /** An option that is not kept takes nothing from what the other side keeps. */
  lemma {:induction false} DropUnkept(left: Fork, right: Fork, field: Field)
    requires UniqueIds(left) && UniqueIds(right) && |left| > 0 && !Kept(left[0], right, field)
    ensures Missed(right, left, field) == Missed(right, left[1..], field)
  {
    hide Get;
    LookupAt(right, left[0].id, field);
    LookupAt(left[1..], left[0].id, field);
    RestIds(left);
    MissedAlike(right, left, left[1..], field);
  }

  lemma {:induction false} FirstOption(left: Fork, right: Fork, field: Field)
    requires |left| > 0
    ensures var kept, rest := Kept(left[0], right, field), Missed(left[1..], right, field);
            && AlignedHits(left, right, field) == AlignedHits(left[1..], right, field) + (if kept then 1 else 0)
            && multiset(Missed(left, right, field))
               == if kept then multiset(rest) else multiset(rest) + multiset{Get(left[0].sig, field)}
  {
    hide Get, Lookup;
    var rest, value := Missed(left[1..], right, field), Get(left[0].sig, field);
    assert multiset([value] + rest) == multiset(rest) + multiset{value};
  }

  /** Both sides split into the kept values and what each side misses. */
  lemma {:induction false} KeptValues(left: Fork, right: Fork, field: Field) returns (kept: multiset<Option<string>>)
    requires UniqueIds(left) && UniqueIds(right)
    ensures multiset(Values(left, field)) == kept + multiset(Missed(left, right, field))
    ensures multiset(Values(right, field)) == kept + multiset(Missed(right, left, field))
    ensures |kept| == AlignedHits(left, right, field)
    decreases |left|
  {
    hide Get, Without, Values, UniqueIds, Lookup, Missed, AlignedHits;
    if |left| == 0 {
      NoOptions(right, field);
      kept := multiset{};
    } else {
      var l, r := Values(left, field), Values(right, field);
      FirstOption(left, right, field);
      ValuesRest(left, 0, field);
      RestIds(left);
      SplitFirst(l);
      if Kept(left[0], right, field) {
        var i := FindId(right, left[0].id, field);
        hide Kept;
        ValuesRest(right, i, field);
        SplitAt(r, i);
        UnusedId(left[1..], right, i, field);
        DropKept(left, right, i, field);
        kept := KeptValues(left[1..], Without(right, i), field);
        kept := kept + multiset{l[0]};
      } else {
        kept := KeptValues(left[1..], right, field);
        DropUnkept(left, right, field);
      }
    }
  }

  lemma {:induction false} NoOptions(right: Fork, field: Field)
    ensures Missed(right, [], field) == Values(right, field) && Missed([], right, field) == Values([], field) == []
    ensures AlignedHits([], right, field) == 0
  {
    NothingKept(right, field);
  }

  lemma {:induction false} CommonRemainder<T>(h: multiset<T>, a: multiset<T>, b: multiset<T>)
    ensures |(h + a) * (h + b)| == |h| + |a * b|
  {
    assert (h + a) * (h + b) == h + a * b;
  }

  /** What the shortcut falls short of the best pairing by, exactly: the values the two
      sides could still exchange among the options that differ from their namesakes. */
  lemma {:induction false} ShortcutShortfall(left: Fork, right: Fork, field: Field)
    requires UniqueIds(left) && UniqueIds(right)
    ensures Common(Values(left, field), Values(right, field))
         == AlignedHits(left, right, field) + Common(Missed(left, right, field), Missed(right, left, field))
  {
    hide Values, Missed, AlignedHits, UniqueIds;
    var kept := KeptValues(left, right, field);
    CommonRemainder(kept, multiset(Missed(left, right, field)), multiset(Missed(right, left, field)));
  }

  lemma {:induction false} NothingInCommon<T>(l: seq<T>, r: seq<T>)
    ensures Common(l, r) == 0 <==> forall x :: x in l ==> x !in r
  {
    var both := multiset(l) * multiset(r);
    assert Common(l, r) == 0 <==> both == multiset{};
    if Common(l, r) == 0 {
      assert both == multiset{};
      forall x | x in l
        ensures x !in r
      {
        assert multiset(l)[x] > 0 && both[x] == 0;
      }
    }
    if both != multiset{} {
      var x :| x in both;
      assert x in l && x in r;
    }
  }

  /** Pairing by id is a best pairing exactly when no two options cross. */
  lemma {:induction false} ShortcutBestIffNoneCross(left: Fork, right: Fork, field: Field)
    requires UniqueIds(left) && UniqueIds(right)
    ensures AlignedHits(left, right, field) == Common(Values(left, field), Values(right, field))
       <==> !Crossed(left, right, field)
  {
    ShortcutShortfall(left, right, field);
    var l, r := Missed(left, right, field), Missed(right, left, field);
    NothingInCommon(l, r);
    hide Get, Kept, Common, Values, UniqueIds;
    if Crossed(left, right, field) {
      var i, j :| 0 <= i < |left| && 0 <= j < |right| && CrossedAt(left, right, field, i, j);
      MissedMembers(left, right, field, Get(left[i].sig, field));
      MissedMembers(right, left, field, Get(left[i].sig, field));
    }
    if x :| x in l && x in r {
      MissedMembers(left, right, field, x);
      MissedMembers(right, left, field, x);
      var i :| 0 <= i < |left| && Get(left[i].sig, field) == x && !Kept(left[i], right, field);
      var j :| 0 <= j < |right| && Get(right[j].sig, field) == x && !Kept(right[j], left, field);
      assert CrossedAt(left, right, field, i, j);
    }
  }

  /** The count at a fork never exceeds the best pairing, and is it exactly when the ids
      do not align or nothing crosses. */
  lemma {:induction false} HitsAreBestIff(left: Fork, right: Fork, field: Field)
    requires UniqueIds(left) && UniqueIds(right)
    ensures Hits(left, right, field) <= Common(Values(left, field), Values(right, field))
    ensures Hits(left, right, field) == Common(Values(left, field), Values(right, field))
       <==> !Aligned(left, right) || !Crossed(left, right, field)
  {
    AlignedAtMostCommon(left, right, field);
    ShortcutBestIffNoneCross(left, right, field);
  }

  /** The shortcut is not the maximum over pairings: swapping two options' families
      under shared ids scores none where a pairing scores both. */
  lemma AlignedCanMissTheBest()
    ensures var left := [Choice("a", Plain("F")), Choice("b", Plain("G"))];
            var right := [Choice("a", Plain("G")), Choice("b", Plain("F"))];
            Hits(left, right, Family) == 0 && Common(Values(left, Family), Values(right, Family)) == 2
  {
    var left := [Choice("a", Plain("F")), Choice("b", Plain("G"))];
    var right := [Choice("a", Plain("G")), Choice("b", Plain("F"))];
    assert right[0].id == "a" && right[1].id == "b";
    assert HasId(right, "a") && HasId(right, "b");
    assert SharedIds(left, right) == {"a", "b"} by {
      assert left[0].id == "a" && left[1].id == "b";
    }
    assert Aligned(left, right);
    assert left[1..] == [Choice("b", Plain("G"))] && right[1..] == [Choice("b", Plain("F"))];
    var l, r := Values(left, Family), Values(right, Family);
    assert l == [Some("F"), Some("G")] && r == [Some("G"), Some("F")];
    assert multiset(l) * multiset(r) == multiset{Some("F"), Some("G")};
  }

  // ----- symmetry of one fork -----

  function HitIds(left: Fork, right: Fork, field: Field): set<string> {
    set i | 0 <= i < |left| && Lookup(right, left[i].id, field) == Some(Get(left[i].sig, field)) :: left[i].id
  }

  lemma {:induction false} HitIdsStep(left: Fork, right: Fork, field: Field)
    requires UniqueIds(left) && |left| > 0
    ensures var rest := HitIds(left[1..], right, field);
            && left[0].id !in rest
            && HitIds(left, right, field)
               == if Lookup(right, left[0].id, field) == Some(Get(left[0].sig, field)) then rest + {left[0].id} else rest
  {
    var now, rest := HitIds(left, right, field), HitIds(left[1..], right, field);
    hide Get, Lookup;
    forall id
      ensures id in now <==> id in rest || (id == left[0].id && Lookup(right, id, field) == Some(Get(left[0].sig, field)))
    {
      if id in now {
        var i :| 0 <= i < |left| && left[i].id == id && Lookup(right, left[i].id, field) == Some(Get(left[i].sig, field));
        assert i > 0 ==> left[1..][i - 1] == left[i];
      }
      if id in rest {
        var i :| 0 <= i < |left[1..]| && left[1..][i].id == id && Lookup(right, id, field) == Some(Get(left[1..][i].sig, field));
        assert left[i + 1] == left[1..][i];
      }
    }
  }

  lemma {:induction false} AlignedHitsCountIds(left: Fork, right: Fork, field: Field)
    requires UniqueIds(left)
    ensures AlignedHits(left, right, field) == |HitIds(left, right, field)|
  {
    if |left| > 0 {
      RestIds(left);
      AlignedHitsCountIds(left[1..], right, field);
      HitIdsStep(left, right, field);
      hide HitIds, Get, Lookup;
    }
  }

  lemma {:induction false} HitIdsFlip(left: Fork, right: Fork, field: Field, id: string)
    requires UniqueIds(left) && UniqueIds(right) && id in HitIds(left, right, field)
    ensures id in HitIds(right, left, field)
  {
    var i :| 0 <= i < |left| && left[i].id == id && Lookup(right, left[i].id, field) == Some(Get(left[i].sig, field));
    var j := FindId(right, id, field);
    LookupAt(left, id, field);
    assert right[j].id == id && Lookup(left, right[j].id, field) == Some(Get(right[j].sig, field));
  }

  lemma {:induction false} SharedIdsFlip(left: Fork, right: Fork)
    ensures SharedIds(left, right) == SharedIds(right, left)
  {
  }

  /** Which book comes first does not matter at a fork. */
  lemma {:induction false} HitsSymmetric(left: Fork, right: Fork, field: Field)
    requires UniqueIds(left) && UniqueIds(right)
    ensures Hits(left, right, field) == Hits(right, left, field)
  {
    SharedIdsFlip(left, right);
    CommonSymmetric(Values(left, field), Values(right, field));
    AlignedHitsCountIds(left, right, field);
    AlignedHitsCountIds(right, left, field);
    forall id
      ensures id in HitIds(left, right, field) <==> id in HitIds(right, left, field)
    {
      if id in HitIds(left, right, field) {
        HitIdsFlip(left, right, field, id);
      }
      if id in HitIds(right, left, field) {
        HitIdsFlip(right, left, field, id);
      }
    }
    assert HitIds(left, right, field) == HitIds(right, left, field);
  }

  lemma {:induction false} AlignedHitsBound(left: Fork, right: Fork, field: Field)
    ensures AlignedHits(left, right, field) <= |left|
  {
    if |left| > 0 {
      AlignedHitsBound(left[1..], right, field);
    }
  }

  /** Hits never exceed the options of the larger fork. */
  lemma {:induction false} HitsBound(left: Fork, right: Fork, field: Field)
    ensures Hits(left, right, field) <= MaxOptions(left, right)
  {
    AlignedHitsBound(left, right, field);
    SubsetSmaller(multiset(Values(left, field)) * multiset(Values(right, field)), multiset(Values(left, field)));
  }

  // ----- the same act means the same family -----

  function BeforeBar(s: string): string {
    if |s| == 0 || s[0] == '|' then "" else [s[0]] + BeforeBar(s[1..])
  }

  lemma {:induction false} BeforeBarOf(family: string, rest: string)
    requires '|' !in family
    ensures BeforeBar(family + "|" + rest) == family
  {
    if |family| > 0 {
      BeforeBarOf(family[1..], rest);
      assert (family + "|" + rest)[1..] == family[1..] + "|" + rest;
    }
  }

  /** The contract writes a missing family in one way, `blank`, and uses no bar in the others. */
  ghost predicate TidyFamilies(fork: Fork, blank: Option<string>) {
    forall i :: 0 <= i < |fork| ==>
      var f := fork[i].sig.family;
      f == blank || (f.Some? && f.value != "" && '|' !in f.value)
  }

  function FamilyOfAct(blank: Option<string>, act: Option<string>): Option<string> {
    if act.None? || BeforeBar(act.value) == "" then blank else Some(BeforeBar(act.value))
  }

  lemma {:induction false} ActGivesFamily(fork: Fork, blank: Option<string>, i: nat)
    requires (blank == None || blank == Some("")) && TidyFamilies(fork, blank) && i < |fork|
    ensures FamilyOfAct(blank, Get(fork[i].sig, Act)) == Get(fork[i].sig, Family)
  {
    var sig := fork[i].sig;
    BeforeBarOf(OrEmpty(sig.family), OrEmpty(sig.target) + "|" + OrEmpty(sig.tradeoff));
    assert NormalizedAct(sig) == OrEmpty(sig.family) + "|" + (OrEmpty(sig.target) + "|" + OrEmpty(sig.tradeoff));
  }

  /** Options of the two forks that ask the same act declare the same family. */
  ghost predicate ActsTellFamilies(left: Fork, right: Fork) {
    forall i, j :: 0 <= i < |left| && 0 <= j < |right| && Get(left[i].sig, Act) == Get(right[j].sig, Act)
      ==> left[i].sig.family == right[j].sig.family
  }

  lemma {:induction false} AlignedActs(left: Fork, right: Fork)
    requires ActsTellFamilies(left, right) && UniqueIds(right)
    ensures AlignedHits(left, right, Act) <= AlignedHits(left, right, Family)
  {
    if |left| > 0 {
      AlignedActs(left[1..], right);
      if Lookup(right, left[0].id, Act) == Some(Get(left[0].sig, Act)) {
        var j := FindId(right, left[0].id, Act);
        LookupAt(right, left[0].id, Family);
        assert left[0].sig.family == right[j].sig.family;
      }
    }
  }

  lemma {:induction false} ActHitsAtMostFamilyHits(left: Fork, right: Fork)
    requires ActsTellFamilies(left, right) && UniqueIds(right)
    ensures Hits(left, right, Act) <= Hits(left, right, Family)
  {
    AlignedActs(left, right);
    var l, r, fl, fr := Values(left, Act), Values(right, Act), Values(left, Family), Values(right, Family);
    hide NormalizedAct;
    forall i, j | 0 <= i < |l| && 0 <= j < |r| && l[i] == r[j]
      ensures fl[i] == fr[j]
    {
      assert left[i].sig.family == right[j].sig.family;
    }
    CommonCoarser(l, r, fl, fr);
  }

  /** Options that ask the same decision keep the same family, fork by fork. */
  lemma {:induction false} SameActSameFamily(left: Fork, right: Fork, blank: Option<string>)
    requires (blank == None || blank == Some("")) && TidyFamilies(left, blank) && TidyFamilies(right, blank)
    requires UniqueIds(right)
    ensures Hits(left, right, Act) <= Hits(left, right, Family)
  {
    hide TidyFamilies, FamilyOfAct, NormalizedAct;
    forall i, j | 0 <= i < |left| && 0 <= j < |right| && Get(left[i].sig, Act) == Get(right[j].sig, Act)
      ensures left[i].sig.family == right[j].sig.family
    {
      ActGivesFamily(left, blank, i);
      ActGivesFamily(right, blank, j);
    }
    ActHitsAtMostFamilyHits(left, right);
  }

  predicate DrawnFrom(fork: Fork, sigs: set<Signature>) {
    forall i :: 0 <= i < |fork| ==> fork[i].sig in sigs
  }

  /** No fork written with these signatures has more same-act hits than family hits exactly
      when, among them, equal acts come from equal families. */
  lemma {:induction false} SameActSameFamilyIff(sigs: set<Signature>)
    ensures (forall left, right ::
               UniqueIds(left) && UniqueIds(right) && DrawnFrom(left, sigs) && DrawnFrom(right, sigs)
               ==> Hits(left, right, Act) <= Hits(left, right, Family))
       <==> forall s, t :: s in sigs && t in sigs && NormalizedAct(s) == NormalizedAct(t) ==> s.family == t.family
  {
    if forall s, t :: s in sigs && t in sigs && NormalizedAct(s) == NormalizedAct(t) ==> s.family == t.family {
      forall left, right | UniqueIds(left) && UniqueIds(right) && DrawnFrom(left, sigs) && DrawnFrom(right, sigs)
        ensures Hits(left, right, Act) <= Hits(left, right, Family)
      {
        hide Hits;
        ActHitsAtMostFamilyHits(left, right);
      }
    }
    if s, t :| s in sigs && t in sigs && NormalizedAct(s) == NormalizedAct(t) && s.family != t.family {
      SingleChoice(s, t);
      var left, right := [Choice("a", s)], [Choice("a", t)];
      hide Hits;
      assert DrawnFrom(left, sigs) && DrawnFrom(right, sigs) && UniqueIds(left) && UniqueIds(right);
      assert Hits(left, right, Act) == 1 && Hits(left, right, Family) == 0;
    }
  }

  /** Without that tidiness it fails: a bar inside a family, or one contract omitting
      the family where the other leaves it empty, makes equal acts of unequal families. */
  lemma UntidyFamiliesBreakIt()
    ensures var left := [Choice("a", Signature(Some("p|q"), Some("r"), Some("x"), None))];
            var right := [Choice("a", Signature(Some("p"), Some("q|r"), Some("x"), None))];
            Hits(left, right, Act) == 1 && Hits(left, right, Family) == 0
    ensures var left := [Choice("a", Signature(None, Some("r"), Some("x"), None))];
            var right := [Choice("a", Signature(Some(""), Some("r"), Some("x"), None))];
            Hits(left, right, Act) == 1 && Hits(left, right, Family) == 0
  {
    SingleChoice(Signature(Some("p|q"), Some("r"), Some("x"), None), Signature(Some("p"), Some("q|r"), Some("x"), None));
    assert "p|q" + "|" + "r" + "|" + "x" == "p" + "|" + "q|r" + "|" + "x";
    SingleChoice(Signature(None, Some("r"), Some("x"), None), Signature(Some(""), Some("r"), Some("x"), None));
  }

  lemma {:induction false} SingleChoice(s: Signature, t: Signature)
    ensures forall f :: Hits([Choice("a", s)], [Choice("a", t)], f) == if Get(s, f) == Get(t, f) then 1 else 0
  {
    var left, right := [Choice("a", s)], [Choice("a", t)];
    assert right[0].id == "a" && left[0].id == "a";
    assert HasId(right, "a");
    assert SharedIds(left, right) == {"a"};
    assert left[1..] == [];
    forall f
      ensures Hits(left, right, f) == if Get(s, f) == Get(t, f) then 1 else 0
    {
      assert Lookup(right, "a", f) == Some(Get(t, f));
      assert Hits(left, right, f) == AlignedHits(left, right, f);
    }
  }

  // ----- the comparison -----

  function MaxOptions(left: Fork, right: Fork): nat {
    if |left| >= |right| then |left| else |right|
  }

  datatype Worst = Worst(rate: real, node: string)

  datatype Scores = Scores(
    forks: nat, options: nat, sameDecisions: nat,
    familyRate: real, tradeoffRate: real, consequenceRate: real, sequenceRate: real,
    worstFamily: Worst, worstTradeoff: Worst, worstConsequence: Worst)

  /** One node that both contracts declare. */
  datatype Pair = Pair(node: string, left: Fork, right: Fork)

  /** The nodes that are real decisions in both contracts. */
  function SharedForks(a: Program, b: Program): set<string> {
    set n | n in a && n in b && |a[n]| > 1 && |b[n]| > 1
  }

  ghost predicate SharedNodes(a: Program, b: Program, nodes: seq<string>) {
    forall i :: 0 <= i < |nodes| ==> nodes[i] in a && nodes[i] in b
  }

  function Pairs(a: Program, b: Program, nodes: seq<string>): (pairs: seq<Pair>)
    requires SharedNodes(a, b, nodes)
    ensures |pairs| == |nodes|
    ensures forall i :: 0 <= i < |nodes| ==> pairs[i] == Pair(nodes[i], a[nodes[i]], b[nodes[i]])
  {
    seq(|nodes|, i requires 0 <= i < |nodes| => Pair(nodes[i], a[nodes[i]], b[nodes[i]]))
  }

  ghost predicate Decisions(pairs: seq<Pair>) {
    forall i :: 0 <= i < |pairs| ==> |pairs[i].left| > 1 && |pairs[i].right| > 1
  }

  /** A rate; the program never divides by a fork or a comparison without options. */
  function Quotient(x: nat, y: nat): real {
    if y == 0 then 0.0 else x as real / y as real
  }

  function TotalOptions(pairs: seq<Pair>): nat {
    if |pairs| == 0 then 0
    else TotalOptions(pairs[..|pairs| - 1]) + MaxOptions(pairs[|pairs| - 1].left, pairs[|pairs| - 1].right)
  }

  ghost function TotalHits(pairs: seq<Pair>, field: Field): nat {
    if |pairs| == 0 then 0
    else TotalHits(pairs[..|pairs| - 1], field) + Hits(pairs[|pairs| - 1].left, pairs[|pairs| - 1].right, field)
  }

  ghost function Rate(p: Pair, field: Field): real {
    Quotient(Hits(p.left, p.right, field), MaxOptions(p.left, p.right))
  }

  function Worse(w: Worst, rate: real, node: string): Worst {
    if rate > w.rate then Worst(rate, node) else w
  }

  ghost function WorstFork(pairs: seq<Pair>, field: Field): Worst {
    if |pairs| == 0 then Worst(0.0, "")
    else
      var p := pairs[|pairs| - 1];
      Worse(WorstFork(pairs[..|pairs| - 1], field), Rate(p, field), p.node)
  }

  function Families(fork: Fork): seq<string> {
    seq(|fork|, i requires 0 <= i < |fork| => OrEmpty(fork[i].sig.family))
  }

  /** Equal sorted lists of families: equal multisets. */
  predicate SameFamilies(p: Pair) {
    multiset(Families(p.left)) == multiset(Families(p.right))
  }

  function SequenceMatches(pairs: seq<Pair>): nat {
    if |pairs| == 0 then 0
    else SequenceMatches(pairs[..|pairs| - 1]) + if SameFamilies(pairs[|pairs| - 1]) then 1 else 0
  }

  ghost function Score(pairs: seq<Pair>): Scores {
    var options := TotalOptions(pairs);
    Scores(|pairs|, options, TotalHits(pairs, Act),
           Quotient(TotalHits(pairs, Family), options),
           Quotient(TotalHits(pairs, Tradeoff), options),
           Quotient(TotalHits(pairs, Consequence), options),
           Quotient(SequenceMatches(pairs), |pairs|),
           WorstFork(pairs, Family), WorstFork(pairs, Tradeoff), WorstFork(pairs, Consequence))
  }

  lemma {:induction false} OptionsPositive(pairs: seq<Pair>)
    requires Decisions(pairs)
    ensures TotalOptions(pairs) >= 2 * |pairs|
  {
    if |pairs| > 0 {
      OptionsPositive(pairs[..|pairs| - 1]);
    }
  }

  /** The running totals of one axis. */
  datatype Axis = Axis(hits: nat, worst: Worst)

  ghost predicate AxisAt(x: Axis, pairs: seq<Pair>, field: Field) {
    x.hits == TotalHits(pairs, field) && x.worst == WorstFork(pairs, field)
  }

  method Tally(x: Axis, p: Pair, field: Field, ghost before: seq<Pair>) returns (y: Axis)
    requires AxisAt(x, before, field)
    ensures AxisAt(y, before + [p], field)
  {
    var hits := BestAlignment(p.left, p.right, field);
    var rate := Quotient(hits, MaxOptions(p.left, p.right));
    y := Axis(x.hits + hits, Worse(x.worst, rate, p.node));
    assert (before + [p])[..|before|] == before;
  }

  lemma {:induction false} OneMoreFork(before: seq<Pair>, p: Pair)
    ensures TotalOptions(before + [p]) == TotalOptions(before) + MaxOptions(p.left, p.right)
    ensures SequenceMatches(before + [p]) == SequenceMatches(before) + if SameFamilies(p) then 1 else 0
  {
    assert (before + [p])[..|before|] == before;
  }

  lemma StartTotals()
    ensures TotalOptions([]) == 0 && SequenceMatches([]) == 0
    ensures forall f :: AxisAt(Axis(0, Worst(0.0, "")), [], f)
  {
  }

  method ScoreForks(pairs: seq<Pair>) returns (scores: Scores)
    ensures scores == Score(pairs)
  {
    var options, matches := 0, 0;
    var act, family := Axis(0, Worst(0.0, "")), Axis(0, Worst(0.0, ""));
    var tradeoff, consequence := act, act;
    hide SequenceMatches, TotalOptions, SameFamilies, MaxOptions, AxisAt;
    StartTotals();
    for i := 0 to |pairs|
      invariant options == TotalOptions(pairs[..i]) && matches == SequenceMatches(pairs[..i])
      invariant AxisAt(act, pairs[..i], Act) && AxisAt(family, pairs[..i], Family)
      invariant AxisAt(tradeoff, pairs[..i], Tradeoff) && AxisAt(consequence, pairs[..i], Consequence)
    {
      var p := pairs[i];
      ghost var before := pairs[..i];
      assert pairs[..i + 1] == before + [p];
      OneMoreFork(before, p);
      options := options + MaxOptions(p.left, p.right);
      act := Tally(act, p, Act, before);
      family := Tally(family, p, Family, before);
      tradeoff := Tally(tradeoff, p, Tradeoff, before);
      consequence := Tally(consequence, p, Consequence, before);
      matches := matches + if SameFamilies(p) then 1 else 0;
    }
    assert pairs[..|pairs|] == pairs;
    Totals(act, family, tradeoff, consequence, pairs);
    scores := Scores(|pairs|, options, act.hits,
                     Quotient(family.hits, options), Quotient(tradeoff.hits, options), Quotient(consequence.hits, options),
                     Quotient(matches, |pairs|),
                     family.worst, tradeoff.worst, consequence.worst);
  }

  lemma {:induction false} Totals(act: Axis, family: Axis, tradeoff: Axis, consequence: Axis, pairs: seq<Pair>)
    requires AxisAt(act, pairs, Act) && AxisAt(family, pairs, Family)
    requires AxisAt(tradeoff, pairs, Tradeoff) && AxisAt(consequence, pairs, Consequence)
    ensures act.hits == TotalHits(pairs, Act)
    ensures family == Axis(TotalHits(pairs, Family), WorstFork(pairs, Family))
    ensures tradeoff == Axis(TotalHits(pairs, Tradeoff), WorstFork(pairs, Tradeoff))
    ensures consequence == Axis(TotalHits(pairs, Consequence), WorstFork(pairs, Consequence))
  {
  }

  /** Compares the shared decisions in ascending node order. */
  method Compare(a: Program, b: Program) returns (scores: Option<Scores>)
    ensures scores.None? <==> SharedForks(a, b) == {}
    ensures scores.Some? ==> exists nodes ::
              && Lists(nodes, SharedForks(a, b)) && SharedNodes(a, b, nodes) && |nodes| > 0
              && (forall n :: n in nodes <==> n in a && n in b && |a[n]| > 1 && |b[n]| > 1)
              && Decisions(Pairs(a, b, nodes)) && TotalOptions(Pairs(a, b, nodes)) > 0
              && scores.value == Score(Pairs(a, b, nodes))
  {
    var nodes := Sorted(SharedForks(a, b));
    if |nodes| == 0 {
      assert forall n :: n in SharedForks(a, b) ==> n in nodes;
      return None;
    }
    assert nodes[0] in SharedForks(a, b);
    NodesAreShared(a, b, nodes);
    var result := ScoreForks(Pairs(a, b, nodes));
    scores := Some(result);
  }

  lemma {:induction false} NodesAreShared(a: Program, b: Program, nodes: seq<string>)
    requires Lists(nodes, SharedForks(a, b))
    ensures SharedNodes(a, b, nodes) && Decisions(Pairs(a, b, nodes))
  {
    forall i | 0 <= i < |nodes|
      ensures nodes[i] in SharedForks(a, b)
    {
      assert nodes[i] in nodes;
    }
  }

  // ----- what the scores mean -----

  /** `pairs[i]` is the first fork to reach the worst rate. */
  ghost predicate FirstToReach(pairs: seq<Pair>, field: Field, w: Worst, i: nat) {
    && i < |pairs| && pairs[i].node == w.node && Rate(pairs[i], field) == w.rate
    && forall j :: 0 <= j < i ==> Rate(pairs[j], field) < w.rate
  }

  ghost predicate BoundsRates(pairs: seq<Pair>, field: Field, rate: real) {
    forall i :: 0 <= i < |pairs| ==> Rate(pairs[i], field) <= rate
  }

  lemma {:induction false} BoundsStep(pairs: seq<Pair>, field: Field, less: real, rate: real)
    requires |pairs| > 0 && BoundsRates(pairs[..|pairs| - 1], field, less) && less <= rate
    requires Rate(pairs[|pairs| - 1], field) <= rate
    ensures BoundsRates(pairs, field, rate)
  {
    hide Rate;
    forall i | 0 <= i < |pairs|
      ensures Rate(pairs[i], field) <= rate
    {
      if i < |pairs| - 1 {
        assert pairs[..|pairs| - 1][i] == pairs[i];
      }
    }
  }

  /** No fork exceeds the worst rate, and the worst fork is named only when it has hits. */
  lemma {:induction false} WorstBounds(pairs: seq<Pair>, field: Field)
    ensures var w := WorstFork(pairs, field);
            0.0 <= w.rate && BoundsRates(pairs, field, w.rate) && (w.rate == 0.0 ==> w.node == "")
  {
    if |pairs| > 0 {
      var m := |pairs| - 1;
      WorstBounds(pairs[..m], field);
      var before, now := WorstFork(pairs[..m], field), WorstFork(pairs, field);
      assert now == Worse(before, Rate(pairs[m], field), pairs[m].node);
      hide Rate, WorstFork, BoundsRates;
      BoundsStep(pairs, field, before.rate, now.rate);
    }
  }

  /** A worst rate above zero belongs to the first fork that has it. */
  lemma {:induction false} WorstReached(pairs: seq<Pair>, field: Field) returns (i: nat)
    requires WorstFork(pairs, field).rate != 0.0
    ensures FirstToReach(pairs, field, WorstFork(pairs, field), i)
  {
    var m := |pairs| - 1;
    hide Rate;
    if Rate(pairs[m], field) > WorstFork(pairs[..m], field).rate {
      WorstBounds(pairs[..m], field);
      i := m;
    } else {
      i := WorstReached(pairs[..m], field);
    }
  }

  function AtRate(rate: real, options: nat): real {
    rate * options as real
  }

  lemma MeanStep(hits: nat, options: nat, forkHits: nat, forkOptions: nat, rate: real)
    requires forkOptions > 0 && hits as real <= AtRate(rate, options) && Quotient(forkHits, forkOptions) <= rate
    ensures (hits + forkHits) as real <= AtRate(rate, options + forkOptions)
  {
    var q, k := Quotient(forkHits, forkOptions), forkOptions as real;
    assert q * k == forkHits as real;
    assert (rate - q) * k >= 0.0;
  }

  lemma AtRateOfNone(rate: real)
    ensures AtRate(rate, 0) == 0.0
  {
  }

  lemma {:induction false} BoundsRest(pairs: seq<Pair>, field: Field, rate: real)
    requires Decisions(pairs) && BoundsRates(pairs, field, rate) && |pairs| > 0
    ensures var p := pairs[|pairs| - 1];
            Quotient(Hits(p.left, p.right, field), MaxOptions(p.left, p.right)) <= rate && MaxOptions(p.left, p.right) > 0
    ensures Decisions(pairs[..|pairs| - 1]) && BoundsRates(pairs[..|pairs| - 1], field, rate)
  {
    var p := pairs[|pairs| - 1];
    hide Quotient, Hits;
    assert Rate(p, field) <= rate;
  }

  lemma {:induction false} TotalAtMostWorst(pairs: seq<Pair>, field: Field, rate: real)
    requires Decisions(pairs) && BoundsRates(pairs, field, rate)
    ensures TotalHits(pairs, field) as real <= AtRate(rate, TotalOptions(pairs))
  {
    AtRateOfNone(rate);
    hide Hits, Quotient, AtRate, MaxOptions, BoundsRates, Decisions;
    if |pairs| > 0 {
      var p, less := pairs[|pairs| - 1], pairs[..|pairs| - 1];
      BoundsRest(pairs, field, rate);
      TotalAtMostWorst(less, field, rate);
      MeanStep(TotalHits(less, field), TotalOptions(less), Hits(p.left, p.right, field), MaxOptions(p.left, p.right), rate);
    }
  }

  lemma MeanBound(hits: nat, options: nat, rate: real)
    requires options > 0 && hits as real <= AtRate(rate, options)
    ensures Quotient(hits, options) <= rate
  {
    var q, k := Quotient(hits, options), options as real;
    assert q * k == hits as real;
    assert (rate - q) * k >= 0.0;
  }

  /** An option-weighted mean rate never exceeds the worst fork's rate, on any axis. */
  lemma {:induction false} MeanAtMostWorst(pairs: seq<Pair>, field: Field)
    requires Decisions(pairs) && |pairs| > 0
    ensures TotalOptions(pairs) > 0
    ensures Quotient(TotalHits(pairs, field), TotalOptions(pairs)) <= WorstFork(pairs, field).rate
  {
    OptionsPositive(pairs);
    WorstBounds(pairs, field);
    hide TotalHits, TotalOptions, WorstFork, BoundsRates, Quotient, AtRate, FirstToReach;
    TotalAtMostWorst(pairs, field, WorstFork(pairs, field).rate);
    MeanBound(TotalHits(pairs, field), TotalOptions(pairs), WorstFork(pairs, field).rate);
  }

  function Mirror(pairs: seq<Pair>): seq<Pair> {
    seq(|pairs|, i requires 0 <= i < |pairs| => Pair(pairs[i].node, pairs[i].right, pairs[i].left))
  }

  ghost predicate WellKeyed(pairs: seq<Pair>) {
    forall i :: 0 <= i < |pairs| ==> UniqueIds(pairs[i].left) && UniqueIds(pairs[i].right)
  }

  lemma {:induction false} AxisSymmetric(pairs: seq<Pair>, field: Field)
    requires WellKeyed(pairs)
    ensures TotalHits(pairs, field) == TotalHits(Mirror(pairs), field)
    ensures WorstFork(pairs, field) == WorstFork(Mirror(pairs), field)
  {
    if |pairs| > 0 {
      var m := |pairs| - 1;
      AxisSymmetric(pairs[..m], field);
      assert Mirror(pairs)[..m] == Mirror(pairs[..m]);
      HitsSymmetric(pairs[m].left, pairs[m].right, field);
      hide Hits, UniqueIds, Quotient, Worse;
      var last := Mirror(pairs)[m];
      assert Rate(pairs[m], field) == Rate(last, field) && last.node == pairs[m].node;
    }
  }

  lemma {:induction false} CountsSymmetric(pairs: seq<Pair>)
    ensures TotalOptions(pairs) == TotalOptions(Mirror(pairs))
    ensures SequenceMatches(pairs) == SequenceMatches(Mirror(pairs))
  {
    if |pairs| > 0 {
      var m := |pairs| - 1;
      CountsSymmetric(pairs[..m]);
      assert Mirror(pairs)[..m] == Mirror(pairs[..m]);
    }
  }

  lemma {:induction false} FirstListed(r: seq<string>, s: set<string>)
    requires Lists(r, s) && |r| > 0
    ensures r[0] in s
  {
    assert r[0] in r;
  }

  lemma {:induction false} NothingListed(r: seq<string>, s: set<string>)
    requires Lists(r, s) && forall x :: x !in s
    ensures r == []
  {
    if |r| > 0 {
      FirstListed(r, s);
    }
  }

  lemma {:induction false} ListingUnique(q: seq<string>, r: seq<string>, s: set<string>)
    requires Lists(q, s) && Lists(r, s)
    ensures q == r
  {
    if q == [] {
      NothingListed(r, s);
    } else {
      assert q[0] in q && q[0] in s;
      assert r != [];
      FirstIsLeast(q, r, s);
      FirstIsLeast(r, q, s);
      BeforeTotal(q[0], r[0]);
      var rest := s - {q[0]};
      RestLists(q, s);
      RestLists(r, s);
      ListingUnique(q[1..], r[1..], rest);
      assert q == [q[0]] + q[1..] && r == [r[0]] + r[1..];
    }
  }

  lemma {:induction false} FirstIsLeast(q: seq<string>, r: seq<string>, s: set<string>)
    requires Lists(q, s) && Lists(r, s) && |q| > 0 && |r| > 0
    ensures q[0] == r[0] || Before(q[0], r[0])
  {
    assert r[0] in r && r[0] in s && r[0] in q;
    var i :| 0 <= i < |q| && q[i] == r[0];
  }

  lemma {:induction false} RestLists(q: seq<string>, s: set<string>)
    requires Lists(q, s) && |q| > 0
    ensures Lists(q[1..], s - {q[0]})
  {
    assert q == [q[0]] + q[1..];
    forall x
      ensures x in q[1..] <==> x in s - {q[0]}
    {
      if x in q[1..] {
        var i :| 0 <= i < |q[1..]| && q[1..][i] == x;
        assert q[i + 1] == x && Before(q[0], q[i + 1]);
        BeforeTotal(q[0], x);
        assert x in q;
      }
    }
  }

  /** Comparing the contracts the other way round gives the same scores and the same
      worst forks. */
  lemma {:induction false} CompareSymmetric(a: Program, b: Program, nodes: seq<string>, nodes': seq<string>)
    requires Lists(nodes, SharedForks(a, b)) && Lists(nodes', SharedForks(b, a)) && |nodes| > 0
    requires forall n :: n in SharedForks(a, b) ==> UniqueIds(a[n]) && UniqueIds(b[n])
    ensures nodes == nodes' && SharedNodes(a, b, nodes) && SharedNodes(b, a, nodes)
    ensures var one, two := Pairs(a, b, nodes), Pairs(b, a, nodes);
            Score(one) == Score(two)
  {
    assert SharedForks(a, b) == SharedForks(b, a);
    ListingUnique(nodes, nodes', SharedForks(a, b));
    NodesAreShared(a, b, nodes);
    var one, two := Pairs(a, b, nodes), Pairs(b, a, nodes);
    forall i | 0 <= i < |nodes|
      ensures UniqueIds(a[nodes[i]]) && UniqueIds(b[nodes[i]])
    {
      assert nodes[i] in nodes;
    }
    assert two == Mirror(one);
    CountsSymmetric(one);
    hide TotalHits, TotalOptions, WorstFork, SequenceMatches, Pairs, UniqueIds;
    AxisSymmetric(one, Act);
    AxisSymmetric(one, Family);
    AxisSymmetric(one, Tradeoff);
    AxisSymmetric(one, Consequence);
  }

  /** Over the whole comparison, repeated decisions never outnumber repeated families. */
  lemma {:induction false} DecisionsAtMostFamilies(pairs: seq<Pair>, blank: Option<string>)
    requires WellKeyed(pairs) && (blank == None || blank == Some(""))
    requires forall i :: 0 <= i < |pairs| ==> TidyFamilies(pairs[i].left, blank) && TidyFamilies(pairs[i].right, blank)
    ensures TotalHits(pairs, Act) <= TotalHits(pairs, Family)
  {
    if |pairs| > 0 {
      var p := pairs[|pairs| - 1];
      hide Hits, UniqueIds, TidyFamilies;
      DecisionsAtMostFamilies(pairs[..|pairs| - 1], blank);
      SameActSameFamily(p.left, p.right, blank);
    }
  }
}
