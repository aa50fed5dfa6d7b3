/** Pairings of two lists of values: brute force over arrangements against the size
    of the multiset intersection. */
module Matching {

  /** How many values the two lists have in common, with multiplicity. */
  ghost function Common<T>(l: seq<T>, r: seq<T>): nat {
    |multiset(l) * multiset(r)|
  }

  function Without<T>(r: seq<T>, i: nat): (rest: seq<T>)
    requires i < |r|
    ensures |rest| == |r| - 1
  {
    r[..i] + r[i + 1..]
  }

  /** Positions at which the lists agree, over the shorter length. */
  function Agreement<T(==)>(l: seq<T>, a: seq<T>): nat
    requires |l| == |a|
  {
    if |l| == 0 then 0 else (if l[0] == a[0] then 1 else 0) + Agreement(l[1..], a[1..])
  }

  /** `itertools.permutations(r, k)`: every way to take `k` positions of `r` in order. */
  function Arrangements<T>(r: seq<T>, k: nat): (all: seq<seq<T>>)
    requires k <= |r|
    ensures forall a :: a in all ==> |a| == k
    decreases k, 1, 0
  {
    if k == 0 then [[]] else StartingBelow(r, k, |r|)
  }

  /** The arrangements that take one of the first `n` positions first. */
  function StartingBelow<T>(r: seq<T>, k: nat, n: nat): (all: seq<seq<T>>)
    requires 0 < k <= |r| && n <= |r|
    ensures forall a :: a in all ==> |a| == k
    decreases k, 0, n
  {
    if n == 0 then []
    else StartingBelow(r, k, n - 1) + Prefixed(r[n - 1], Arrangements(Without(r, n - 1), k - 1))
  }

  function Prefixed<T>(x: T, rests: seq<seq<T>>): (all: seq<seq<T>>)
    ensures |all| == |rests| && forall i :: 0 <= i < |all| ==> all[i] == [x] + rests[i]
  {
    seq(|rests|, i requires 0 <= i < |rests| => [x] + rests[i])
  }

  lemma {:induction false} StartingStep<T>(r: seq<T>, k: nat, n: nat)
    requires 0 < k <= |r| && 0 < n <= |r|
    ensures StartingBelow(r, k, n)
         == StartingBelow(r, k, n - 1) + Prefixed(r[n - 1], Arrangements(Without(r, n - 1), k - 1))
  {
  }

  lemma {:induction false} PrefixedMember<T>(x: T, rests: seq<seq<T>>, rest: seq<T>)
    requires rest in rests
    ensures [x] + rest in Prefixed(x, rests)
  {
    var j :| 0 <= j < |rests| && rests[j] == rest;
    assert Prefixed(x, rests)[j] == [x] + rest;
  }

  lemma {:induction false} InAppended<T>(x: seq<T>, y: seq<T>, a: T)
    requires a in x || a in y
    ensures a in x + y
  {
  }

  lemma {:induction false} StartingMembers<T>(r: seq<T>, k: nat, n: nat, i: nat, rest: seq<T>)
    requires 0 < k <= |r| && i < n <= |r| && rest in Arrangements(Without(r, i), k - 1)
    ensures [r[i]] + rest in StartingBelow(r, k, n)
  {
    hide *;
    var a, m := [r[i]] + rest, n - 1;
    if i == m {
      PrefixedMember(r[i], Arrangements(Without(r, i), k - 1), rest);
    } else {
      StartingMembers(r, k, m, i, rest);
    }
    InAppended(StartingBelow(r, k, m), Prefixed(r[m], Arrangements(Without(r, m), k - 1)), a);
    StartingStep(r, k, n);
  }

  lemma {:induction false} StartingInverse<T>(r: seq<T>, k: nat, n: nat, a: seq<T>) returns (i: nat)
    requires 0 < k <= |r| && n <= |r| && a in StartingBelow(r, k, n)
    ensures i < n && |a| == k && a[0] == r[i] && a[1..] in Arrangements(Without(r, i), k - 1)
  {
    if a in StartingBelow(r, k, n - 1) {
      i := StartingInverse(r, k, n - 1, a);
    } else {
      i := n - 1;
      var rests := Arrangements(Without(r, i), k - 1);
      assert a in Prefixed(r[i], rests);
      var j :| 0 <= j < |rests| && [r[i]] + rests[j] == a;
      assert a[1..] == rests[j];
    }
  }

  // ----- counting common values -----

  lemma {:induction false} SplitAt<T>(r: seq<T>, i: nat)
    requires i < |r|
    ensures multiset(r) == multiset(Without(r, i)) + multiset{r[i]}
  {
    assert r == r[..i] + [r[i]] + r[i + 1..];
  }

  lemma {:induction false} SplitFirst<T>(l: seq<T>)
    requires |l| > 0
    ensures multiset(l) == multiset(l[1..]) + multiset{l[0]}
  {
    assert l == [l[0]] + l[1..];
  }

  lemma {:induction false} SharedElement<T>(a: multiset<T>, b: multiset<T>, x: T)
    ensures |(a + multiset{x}) * (b + multiset{x})| == |a * b| + 1
  {
    assert (a + multiset{x}) * (b + multiset{x}) == a * b + multiset{x};
  }

  lemma {:induction false} SubsetSmaller<T>(a: multiset<T>, b: multiset<T>)
    requires a <= b
    ensures |a| <= |b|
  {
    assert b == a + (b - a);
  }

  /** A first value that `r` has can be taken from both sides. */
  lemma {:induction false} CommonTake<T>(l: seq<T>, r: seq<T>, i: nat)
    requires |l| > 0 && i < |r| && r[i] == l[0]
    ensures Common(l, r) == Common(l[1..], Without(r, i)) + 1
  {
    SplitFirst(l);
    SplitAt(r, i);
    SharedElement(multiset(l[1..]), multiset(Without(r, i)), l[0]);
  }

  /** A first value that `r` lacks counts for nothing. */
  lemma {:induction false} CommonSkip<T>(l: seq<T>, r: seq<T>)
    requires |l| > 0 && l[0] !in r
    ensures Common(l, r) == Common(l[1..], r)
  {
    SplitFirst(l);
    assert multiset(l) * multiset(r) == multiset(l[1..]) * multiset(r);
  }

  lemma {:induction false} CommonMonotone<T>(l: seq<T>, r: seq<T>, l': seq<T>, r': seq<T>)
    requires multiset(l) <= multiset(l') && multiset(r) <= multiset(r')
    ensures Common(l, r) <= Common(l', r')
  {
    SubsetSmaller(multiset(l) * multiset(r), multiset(l') * multiset(r'));
  }

  lemma {:induction false} CommonAtMost<T>(l: seq<T>, r: seq<T>, i: nat)
    requires |l| > 0 && i < |r|
    ensures Common(l[1..], Without(r, i)) <= Common(l, r)
  {
    SplitAt(r, i);
    SplitFirst(l);
    CommonMonotone(l[1..], Without(r, i), l, r);
  }

  /** No pairing beats the multiset intersection. */
  lemma {:induction false} AgreementAtMostCommon<T>(l: seq<T>, r: seq<T>, a: seq<T>)
    requires |l| <= |r| && a in Arrangements(r, |l|)
    ensures Agreement(l, a) <= Common(l, r)
  {
    if |l| > 0 {
      var i := StartingInverse(r, |l|, |r|, a);
      AgreementAtMostCommon(l[1..], Without(r, i), a[1..]);
      if l[0] == a[0] {
        CommonTake(l, r, i);
      } else {
        CommonAtMost(l, r, i);
      }
    }
  }

  /** A longer list has a value to spare. */
  lemma {:induction false} Spare<T>(l: seq<T>, r: seq<T>) returns (i: nat)
    requires |l| < |r|
    ensures i < |r| && multiset(r)[r[i]] > multiset(l)[r[i]]
  {
    if forall y :: y in r ==> multiset(r)[y] <= multiset(l)[y] {
      assert multiset(r) <= multiset(l);
      SubsetSmaller(multiset(r), multiset(l));
      assert false;
    }
    var y :| y in r && multiset(r)[y] > multiset(l)[y];
    i :| 0 <= i < |r| && r[i] == y;
  }

  lemma {:induction false} SpareIsFree<T>(l: seq<T>, r: seq<T>, i: nat)
    requires i < |r| && multiset(r)[r[i]] > multiset(l)[r[i]]
    ensures Common(l, Without(r, i)) == Common(l, r)
  {
    SplitAt(r, i);
    assert multiset(l) * multiset(Without(r, i)) == multiset(l) * multiset(r);
  }

  /** Some pairing reaches the multiset intersection. */
  lemma {:induction false} BestArrangement<T>(l: seq<T>, r: seq<T>) returns (a: seq<T>)
    requires |l| <= |r|
    ensures a in Arrangements(r, |l|) && Agreement(l, a) == Common(l, r)
  {
    if |l| == 0 {
      a := [];
      assert multiset(l) * multiset(r) == multiset{};
    } else {
      var i: nat;
      if l[0] in r {
        i :| 0 <= i < |r| && r[i] == l[0];
        CommonTake(l, r, i);
      } else {
        i := Spare(l[1..], r);
        CommonSkip(l, r);
        SpareIsFree(l[1..], r, i);
      }
      var rest := BestArrangement(l[1..], Without(r, i));
      StartingMembers(r, |l|, |r|, i, rest);
      a := [r[i]] + rest;
      assert a[1..] == rest;
    }
  }

  /** The program's search over all arrangements finds the multiset intersection. */
  method BestOverArrangements<T(==)>(l: seq<T>, r: seq<T>) returns (best: nat)
    requires |l| <= |r|
    ensures best == Common(l, r)
  {
    var all := Arrangements(r, |l|);
    best := 0;
    for i := 0 to |all|
      invariant forall j :: 0 <= j < i ==> Agreement(l, all[j]) <= best
      invariant best == 0 || exists j :: 0 <= j < i && Agreement(l, all[j]) == best
    {
      assert all[i] in all;
      var hits := Agreement(l, all[i]);
      if hits > best {
        best := hits;
      }
    }
    ghost var a := BestArrangement(l, r);
    ghost var k :| 0 <= k < |all| && all[k] == a;
    if j :| 0 <= j < |all| && Agreement(l, all[j]) == best {
      AgreementAtMostCommon(l, r, all[j]);
    }
  }

  /** A second pair of lists that agrees wherever the first pair does has at least as
      many values in common. */
  lemma {:induction false} CommonCoarser<T, U>(l: seq<T>, r: seq<T>, fl: seq<U>, fr: seq<U>)
    requires |l| == |fl| && |r| == |fr|
    requires forall i, j :: 0 <= i < |l| && 0 <= j < |r| && l[i] == r[j] ==> fl[i] == fr[j]
    ensures Common(l, r) <= Common(fl, fr)
  {
    if |l| == 0 {
      assert multiset(l) * multiset(r) == multiset{};
    } else if l[0] in r {
      var i :| 0 <= i < |r| && r[i] == l[0];
      CommonTake(l, r, i);
      CommonTake(fl, fr, i);
      CommonCoarser(l[1..], Without(r, i), fl[1..], Without(fr, i));
    } else {
      CommonSkip(l, r);
      CommonCoarser(l[1..], r, fl[1..], fr);
      SplitFirst(fl);
      CommonMonotone(fl[1..], fr, fl, fr);
    }
  }
}
