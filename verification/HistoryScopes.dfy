/** Whose reading the reuse cap looks back on: the whole family's, or the one child's. For
    any number of children and cells, what each scope of `scripts/analyze_sibling_exposure.py`
    keeps apart, and what it does not. */
module HistoryScopes {

  import opened Collections
  import opened Exposure
  import opened ExposureCurves

  /** On call `k` a slug that the usage shows is not taken while the pool has one it does not. */
  ghost predicate TakesUnused(s: Setup, k: nat, pool: seq<string>) {
    forall u: multiset<string>, x :: x in pool && u[x] == 0 ==> u[s.select(k, u)] == 0
  }

  /** The selector honours the reuse cap in whatever cell it draws from. */
  ghost predicate Capped(s: Setup) {
    ValidSetup(s) && forall k: nat :: TakesUnused(s, k, s.pools[s.cell(k)])
  }

  /** Every cell that holds anything holds at least `m` different slugs. */
  ghost predicate PoolsOf(s: Setup, m: nat) {
    forall c :: 0 <= c < |s.pools| && s.pools[c] != [] ==> |Seen(s.pools[c])| >= m
  }

  /** No slug comes twice within twenty servings, as far as pools of `m` allow: among the
      first `m` servings, and throughout when `m` exceeds twenty. */
  ghost predicate Apart(q: seq<string>, m: nat) {
    forall i, j :: 0 <= i < j < |q| && j - i <= 20 && (j < m || m > 20) ==> q[i] != q[j]
  }

  lemma {:induction false} OneMoreApart(q: seq<string>, x: string, m: nat)
    requires Apart(q, m) && (|q| < m || m > 20 ==> x !in Window(q))
    ensures Apart(q + [x], m)
  {
    var more := q + [x];
    forall i, j | 0 <= i < j < |more| && j - i <= 20 && (j < m || m > 20)
      ensures more[i] != more[j]
    {
      if j == |q| {
        InWindow(q, i);
      }
    }
  }

  /** The list of servings that a draw's window is taken from. */
  function Scope(s: Setup, child: nat): Option<nat> {
    if s.familyScope then None else Some(child)
  }

  /** What is served is not in the window of the scope, while the cell outnumbers it. */
  lemma {:induction false} ServedIsFresh(s: Setup, base: nat, trace: seq<Draw>, m: nat)
    requires Capped(s) && PoolsOf(s, m)
    ensures var d := NextDraw(s, base, trace);
            var q := Slugs(trace, Scope(s, d.child));
            d.slug.Some? && (|q| < m || m > 20) ==> d.slug.value !in Window(q)
  {
    var d := NextDraw(s, base, trace);
    var q := Slugs(trace, Scope(s, d.child));
    hide Slugs, Seen, Turn;
    if d.slug.Some? && (|q| < m || m > 20) {
      var k := base + |trace|;
      assert TakesUnused(s, k, s.pools[s.cell(k)]);
      UnusedExists(s.pools[s.cell(k)], Window(q));
      assert multiset(Window(q))[d.slug.value] == 0;
      assert d.slug.value !in multiset(Window(q));
    }
  }

  lemma {:induction false} NothingPlayed(s: Setup, base: nat, who: Option<nat>)
    requires ValidSetup(s)
    ensures Slugs(Play(s, base, 0), who) == []
  {
  }

  /** Under the family scope the whole family's servings keep apart, whoever they were for. */
  lemma {:induction false} FamilyKeepsApart(s: Setup, base: nat, k: nat, m: nat)
    requires Capped(s) && PoolsOf(s, m) && s.familyScope
    ensures Apart(Slugs(Play(s, base, k), None), m)
  {
    hide NextDraw, PoolsOf, Slugs, Play, Apart;
    if k == 0 {
      NothingPlayed(s, base, None);
      assert Apart([], m) by { NothingApart(m); }
    } else {
      FamilyKeepsApart(s, base, k - 1, m);
      var before := Play(s, base, k - 1);
      var d := NextDraw(s, base, before);
      PlayNext(s, base, k - 1);
      SlugsStep(before, d, None);
      ServedIsFresh(s, base, before, m);
      if d.slug.Some? {
        OneMoreApart(Slugs(before, None), d.slug.value, m);
      }
    }
  }

  lemma NothingApart(m: nat)
    ensures Apart([], m)
  {
  }

  /** Under the child scope each child's own servings do. */
  lemma {:induction false} ChildKeepsApart(s: Setup, base: nat, k: nat, child: nat, m: nat)
    requires Capped(s) && PoolsOf(s, m) && !s.familyScope
    ensures Apart(Slugs(Play(s, base, k), Some(child)), m)
  {
    hide NextDraw, PoolsOf, Slugs, Play, Apart;
    if k == 0 {
      NothingPlayed(s, base, Some(child));
      NothingApart(m);
    } else {
      ChildKeepsApart(s, base, k - 1, child, m);
      var before := Play(s, base, k - 1);
      var d := NextDraw(s, base, before);
      PlayNext(s, base, k - 1);
      SlugsStep(before, d, Some(child));
      ServedIsFresh(s, base, before, m);
      if d.slug.Some? && d.child == child {
        OneMoreApart(Slugs(before, Some(child)), d.slug.value, m);
      }
    }
  }

  /** Children of one family with a history each, and a selector that takes the first book
      the filter leaves. */
  function Siblings(pool: seq<string>, children: nat): (s: Setup)
    requires pool != [] && children >= 1
    ensures Capped(s) && s.pools == [pool] && s.children == children && !s.familyScope
  {
    var s := OnePool(pool, (k: nat, usage: multiset<string>) => ReuseCap(pool, usage).0[0], children, false);
    FilteredDrawHonoursCap(s);
    assert forall k: nat :: TakesUnused(s, k, s.pools[s.cell(k)]);
    s
  }

  lemma {:induction false} FirstIsUnused(pool: seq<string>)
    requires pool != []
    ensures ReuseCap(pool, multiset{}).0[0] == pool[0]
  {
  }

  lemma TurnsOfTwo(children: nat)
    requires children >= 2
    ensures Turn(0, children) == 0 && Turn(1, children) == 1
  {
  }

  lemma {:induction false} FirstServing(pool: seq<string>, children: nat, base: nat, trace: seq<Draw>)
    requires pool != [] && children >= 2 && Slugs(trace, Some(Turn(|trace|, children))) == []
    ensures NextDraw(Siblings(pool, children), base, trace) == Draw(Turn(|trace|, children), Some(pool[0]))
  {
    FirstIsUnused(pool);
    hide Slugs, Turn, ReuseCap, Capped;
    assert multiset(Window([])) == multiset{};
  }

  lemma {:induction false} BothAreServed(pool: seq<string>, children: nat, base: nat)
    requires pool != [] && children >= 2
    ensures Play(Siblings(pool, children), base, 2) == [Draw(0, Some(pool[0])), Draw(1, Some(pool[0]))]
  {
    var s := Siblings(pool, children);
    var one := [Draw(0, Some(pool[0]))];
    TurnsOfTwo(children);
    OneServing(pool[0], 1);
    hide NextDraw, Siblings, Play, Turn, Capped, Slugs, ValidSetup;
    PlayNothing(s, base);
    NoServings(0);
    FirstServing(pool, children, base, []);
    PlayNext(s, base, 0);
    FirstServing(pool, children, base, one);
    PlayNext(s, base, 1);
  }

  lemma NoServings(child: nat)
    ensures Slugs([], Some(child)) == []
  {
  }

  lemma {:induction false} OneServing(slug: string, other: nat)
    ensures Slugs([Draw(0, Some(slug))], None) == [slug]
    ensures other != 0 ==> Slugs([Draw(0, Some(slug))], Some(other)) == []
  {
    assert [Draw(0, Some(slug))][..0] == [];
  }

  /** Two siblings of such a family are served one and the same book one after the other. */
  lemma {:induction false} SiblingsShareABook(pool: seq<string>, children: nat, base: nat)
    requires pool != [] && children >= 2
    ensures Slugs(Play(Siblings(pool, children), base, 2), None) == [pool[0], pool[0]]
  {
    BothAreServed(pool, children, base);
    OneServing(pool[0], 1);
    hide Siblings, Play, Slugs, Capped;
    SlugsStep([Draw(0, Some(pool[0]))], Draw(1, Some(pool[0])), None);
  }

  /** So the cap keeps a family's servings apart, whatever honours it, exactly under the
      family scope or with a single child. */
  lemma {:induction false} ApartIffFamilyScope(pool: seq<string>, children: nat, familyScope: bool)
    requires |Seen(pool)| >= 21 && children >= 1
    ensures (forall s, base, k :: Capped(s) && s.pools == [pool] && s.children == children && s.familyScope == familyScope
               ==> Apart(Slugs(Play(s, base, k), None), 21))
       <==> familyScope || children == 1
  {
    assert pool != [];
    if familyScope || children == 1 {
      forall s, base, k | Capped(s) && s.pools == [pool] && s.children == children && s.familyScope == familyScope
        ensures Apart(Slugs(Play(s, base, k), None), 21)
      {
        assert PoolsOf(s, 21);
        if familyScope {
          FamilyKeepsApart(s, base, k, 21);
        } else {
          ScopesAgree(s, base, k);
          ChildKeepsApart(s, base, k, 0, 21);
        }
      }
    } else {
      var s := Siblings(pool, children);
      SiblingsShareABook(pool, children, 0);
      hide Play, Slugs, Capped;
      var q := Slugs(Play(s, 0, 2), None);
      assert q[0] == q[1] && !Apart(q, 21);
    }
  }
}
