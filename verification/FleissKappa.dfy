/** Fleiss' kappa as `scripts/check_annotator_agreement.py` computes it from
    category tallies, against its meaning as counts of agreeing pairs of labels. */
module FleissKappa {
  import opened Collections

  type Label = string
  type Table = seq<seq<Label>>

  // ----- the meaning: pairs of labels that agree -----

  function Count(s: seq<Label>, x: Label): (k: nat)
    ensures k <= |s|
    ensures k > 0 <==> x in s
  {
    if |s| == 0 then 0
    else Count(s[..|s| - 1], x) + if s[|s| - 1] == x then 1 else 0
  }

  /** The pairs `(j, k)` with `s[j] == t[k]`. */
  function Matches(s: seq<Label>, t: seq<Label>): nat {
    if |t| == 0 then 0
    else Matches(s, t[..|t| - 1]) + Count(s, t[|t| - 1])
  }

  function OrderedPairs(n: int): int {
    n * (n - 1)
  }

  function Square(k: int): int {
    k * k
  }

  function Labels(rows: Table, raters: nat): nat {
    |rows| * raters
  }

  /** The chance that two different raters of one item agree. */
  function ItemAgreement(row: seq<Label>, raters: nat): real
    requires raters >= 2
  {
    (Matches(row, row) - |row|) as real / OrderedPairs(raters) as real
  }

  function TotalAgreement(rows: Table, raters: nat): real
    requires raters >= 2
  {
    if |rows| == 0 then 0.0
    else TotalAgreement(rows[..|rows| - 1], raters) + ItemAgreement(rows[|rows| - 1], raters)
  }

  /** The chance that two independent draws from the pooled labels agree. */
  function ChanceAgreement(rows: Table, raters: nat): real
    requires raters >= 2 && |rows| > 0
  {
    var all := Flat(rows);
    Matches(all, all) as real / Square(Labels(rows, raters)) as real
  }

  function Kappa(rows: Table): real {
    if |rows| == 0 || |rows[0]| < 2 then 0.0
    else
      var n := |rows[0]|;
      var observed, chance := Observed(rows, n), ChanceAgreement(rows, n);
      if chance >= 1.0 then 1.0 else (observed - chance) / (1.0 - chance)
  }

  ghost predicate Rectangular(rows: Table) {
    |rows| > 0 && |rows[0]| >= 2 && forall i :: 0 <= i < |rows| ==> |rows[i]| == |rows[0]|
  }

  ghost predicate Unanimous(row: seq<Label>) {
    forall j, k :: 0 <= j < |row| && 0 <= k < |row| ==> row[j] == row[k]
  }

  // ----- tallies by category -----

  ghost predicate Enumerates(cats: seq<Label>, s: seq<Label>) {
    && (forall i, j :: 0 <= i < j < |cats| ==> cats[i] != cats[j])
    && forall x :: x in s ==> x in cats
  }

  function Dot(s: seq<Label>, t: seq<Label>, cats: seq<Label>): nat {
    if |cats| == 0 then 0
    else
      var c := cats[|cats| - 1];
      Dot(s, t, cats[..|cats| - 1]) + Count(s, c) * Count(t, c)
  }

  lemma {:induction false} CountLast(t: seq<Label>, c: Label)
    requires |t| > 0
    ensures Count(t, c) == if t[|t| - 1] == c then Count(t[..|t| - 1], c) + 1 else Count(t[..|t| - 1], c)
  {
  }

  lemma OneMoreProduct(a: nat, b: nat)
    ensures a * (b + 1) == a * b + a
  {
  }

  lemma {:induction false} DotStep(s: seq<Label>, t: seq<Label>, cats: seq<Label>)
    requires |t| > 0 && Enumerates(cats, [])
    ensures var x := t[|t| - 1];
            (Dot(s, t, cats) == Dot(s, t[..|t| - 1], cats) + if x in cats then Count(s, x) else 0)
  {
    hide Count;
    if |cats| > 0 {
      var c := cats[|cats| - 1];
      DotStep(s, t, cats[..|cats| - 1]);
      assert cats == cats[..|cats| - 1] + [c];
      CountLast(t, c);
      OneMoreProduct(Count(s, c), Count(t[..|t| - 1], c));
    }
  }

  lemma {:induction false} DotEmpty(s: seq<Label>, cats: seq<Label>)
    ensures Dot(s, [], cats) == 0
  {
    if |cats| > 0 {
      DotEmpty(s, cats[..|cats| - 1]);
    }
  }

  /** Counting matching pairs one label at a time or one category at a time agree. */
  lemma {:induction false} MatchesByCategory(s: seq<Label>, t: seq<Label>, cats: seq<Label>)
    requires Enumerates(cats, t)
    ensures Matches(s, t) == Dot(s, t, cats)
  {
    if |t| == 0 {
      DotEmpty(s, cats);
    } else {
      assert t == t[..|t| - 1] + [t[|t| - 1]];
      MatchesByCategory(s, t[..|t| - 1], cats);
      DotStep(s, t, cats);
    }
  }

  /** The distinct labels, in first-seen order. */
  function Distinct(s: seq<Label>): (cats: seq<Label>)
    ensures Enumerates(cats, s)
    ensures forall x :: x in cats ==> x in s
  {
    if |s| == 0 then []
    else
      var cats, x := Distinct(s[..|s| - 1]), s[|s| - 1];
      assert s == s[..|s| - 1] + [x];
      if x in cats then cats else cats + [x]
  }

  // ----- algebra of matches -----

  lemma {:induction false} CountSplit(s: seq<Label>, t: seq<Label>, x: Label)
    ensures Count(s + t, x) == Count(s, x) + Count(t, x)
  {
    if |t| == 0 {
      assert s + t == s;
    } else {
      CountSplit(s, t[..|t| - 1], x);
      assert (s + t)[..|s + t| - 1] == s + t[..|t| - 1];
    }
  }

  lemma {:induction false} MatchesSplitLeft(s: seq<Label>, s': seq<Label>, t: seq<Label>)
    ensures Matches(s + s', t) == Matches(s, t) + Matches(s', t)
  {
    if |t| > 0 {
      MatchesSplitLeft(s, s', t[..|t| - 1]);
      CountSplit(s, s', t[|t| - 1]);
    }
  }

  lemma {:induction false} MatchesSplitRight(s: seq<Label>, t: seq<Label>, t': seq<Label>)
    ensures Matches(s, t + t') == Matches(s, t) + Matches(s, t')
  {
    if |t'| == 0 {
      assert t + t' == t;
    } else {
      MatchesSplitRight(s, t, t'[..|t'| - 1]);
      assert (t + t')[..|t + t'| - 1] == t + t'[..|t'| - 1];
    }
  }

  lemma {:induction false} DotSquares(s: seq<Label>, t: seq<Label>, cats: seq<Label>)
    ensures Dot(s, t, cats) == Dot(t, s, cats)
    ensures 2 * Dot(s, t, cats) <= Dot(s, s, cats) + Dot(t, t, cats)
  {
    if |cats| > 0 {
      DotSquares(s, t, cats[..|cats| - 1]);
      SquareOfDifference(Count(s, cats[|cats| - 1]), Count(t, cats[|cats| - 1]));
    }
  }

  lemma SquareOfDifference(a: int, b: int)
    ensures 2 * (a * b) <= a * a + b * b
  {
    assert (a - b) * (a - b) == a * a + b * b - 2 * (a * b);
  }

  lemma OneMore(m: int, p: int)
    ensures (m + 1) * p == m * p + p
  {
  }

  /** Two rows match each other at most as often as, on average, themselves. */
  lemma {:induction false} MatchesBound(s: seq<Label>, t: seq<Label>)
    ensures Matches(s, t) == Matches(t, s)
    ensures 2 * Matches(s, t) <= Matches(s, s) + Matches(t, t)
  {
    var cats := Distinct(s + t);
    assert forall x :: x in s || x in t ==> x in s + t;
    MatchesByCategory(s, t, cats);
    MatchesByCategory(t, s, cats);
    MatchesByCategory(s, s, cats);
    MatchesByCategory(t, t, cats);
    DotSquares(s, t, cats);
  }

  function TotalMatches(rows: Table): nat {
    if |rows| == 0 then 0
    else TotalMatches(rows[..|rows| - 1]) + Matches(rows[|rows| - 1], rows[|rows| - 1])
  }

  lemma {:induction false} FlatAgainstRow(rows: Table, row: seq<Label>)
    ensures 2 * Matches(Flat(rows), row) <= TotalMatches(rows) + |rows| * Matches(row, row)
  {
    if |rows| == 0 {
      MatchesBound([], row);
    } else {
      var m := |rows| - 1;
      hide Matches;
      FlatAgainstRow(rows[..m], row);
      MatchesSplitLeft(Flat(rows[..m]), rows[m], row);
      MatchesBound(rows[m], row);
      OneMore(m, Matches(row, row));
    }
  }

  lemma AddRow(m: int, total: int, own: int, pooled: int, cross: int)
    requires pooled <= m * total && 2 * cross <= total + m * own
    ensures pooled + 2 * cross + own <= (m + 1) * (total + own)
  {
    OneMore(m, total + own);
    assert m * (total + own) == m * total + m * own;
  }

  /** Cauchy-Schwarz over the table: the pooled matches are at most the number of
      items times the matches inside items. */
  lemma {:induction false} PooledMatchesBound(rows: Table)
    ensures Matches(Flat(rows), Flat(rows)) <= |rows| * TotalMatches(rows)
  {
    if |rows| > 0 {
      var m := |rows| - 1;
      var flat, row := Flat(rows[..m]), rows[m];
      hide Matches;
      PooledMatchesBound(rows[..m]);
      MatchesSplitLeft(flat, row, flat + row);
      MatchesSplitRight(flat, flat, row);
      MatchesSplitRight(row, flat, row);
      MatchesBound(flat, row);
      FlatAgainstRow(rows[..m], row);
      AddRow(m, TotalMatches(rows[..m]), Matches(row, row), Matches(flat, flat), Matches(flat, row));
    }
  }

  // ----- bounds -----

  ghost predicate Same(s: seq<Label>, t: seq<Label>) {
    forall j, k :: 0 <= j < |s| && 0 <= k < |t| ==> s[j] == t[k]
  }

  lemma {:induction false} SameStep(s: seq<Label>, t: seq<Label>, x: Label)
    ensures Same(s, t + [x]) <==> Same(s, t) && forall j :: 0 <= j < |s| ==> s[j] == x
  {
    var more := t + [x];
    if Same(s, more) {
      assert more[|t|] == x;
      assert forall k :: 0 <= k < |t| ==> more[k] == t[k];
    }
  }

  lemma {:induction false} MatchesRange(s: seq<Label>, t: seq<Label>)
    ensures Matches(s, t) <= |t| * |s|
    ensures Matches(s, t) == |t| * |s| <==> Same(s, t)
  {
    if |t| > 0 {
      var less, x := t[..|t| - 1], t[|t| - 1];
      MatchesRange(s, less);
      CountAll(s, x);
      OneMore(|less|, |s|);
      assert Matches(s, t) == Matches(s, less) + Count(s, x);
      hide Matches, Count, Same;
      assert t == less + [x];
      SameStep(s, less, x);
    }
  }

  lemma {:induction false} MatchesAtLeast(s: seq<Label>, t: seq<Label>)
    requires forall k :: 0 <= k < |t| ==> t[k] in s
    ensures |t| <= Matches(s, t)
  {
    if |t| > 0 {
      MatchesAtLeast(s, t[..|t| - 1]);
    }
  }

  lemma {:induction false} CountAll(s: seq<Label>, x: Label)
    ensures Count(s, x) == |s| <==> forall j :: 0 <= j < |s| ==> s[j] == x
  {
    if |s| > 0 {
      CountAll(s[..|s| - 1], x);
    }
  }

  /** An item's agreement is a proportion, and one exactly when its raters are unanimous. */
  lemma {:induction false} ItemAgreementRange(row: seq<Label>)
    requires |row| >= 2
    ensures 0.0 <= ItemAgreement(row, |row|) <= 1.0
    ensures ItemAgreement(row, |row|) == 1.0 <==> Unanimous(row)
  {
    MatchesRange(row, row);
    MatchesAtLeast(row, row);
    assert Same(row, row) <==> Unanimous(row);
    var n, pairs := |row|, Matches(row, row);
    hide Matches;
    assert n * n - n == OrderedPairs(n) > 0;
    RatioToOne((pairs - n) as real, OrderedPairs(n) as real);
  }

  lemma RatioToOne(x: real, y: real)
    requires 0.0 <= x <= y && y > 0.0
    ensures 0.0 <= x / y <= 1.0 && (x / y == 1.0 <==> x == y)
  {
    var q := x / y;
    assert q * y == x;
  }

  lemma {:induction false} TotalAgreementRange(rows: Table, raters: nat)
    requires raters >= 2 && forall i :: 0 <= i < |rows| ==> |rows[i]| == raters
    ensures TotalAgreement(rows, raters) <= |rows| as real
    ensures TotalAgreement(rows, raters) == |rows| as real <==> forall i :: 0 <= i < |rows| ==> Unanimous(rows[i])
  {
    if |rows| > 0 {
      var m := |rows| - 1;
      TotalAgreementRange(rows[..m], raters);
      ItemAgreementRange(rows[m]);
      assert rows == rows[..m] + [rows[m]];
      assert (forall i :: 0 <= i < |rows| ==> Unanimous(rows[i]))
        <==> (forall i :: 0 <= i < m ==> Unanimous(rows[..m][i])) && Unanimous(rows[m]);
    }
  }

  lemma {:induction false} FlatLength(rows: Table, raters: nat)
    requires forall i :: 0 <= i < |rows| ==> |rows[i]| == raters
    ensures |Flat(rows)| == |rows| * raters
    ensures forall i, x :: 0 <= i < |rows| && x in rows[i] ==> x in Flat(rows)
  {
    if |rows| > 0 {
      FlatLength(rows[..|rows| - 1], raters);
      OneMore(|rows| - 1, raters);
    }
  }

  lemma {:induction false} OneLabelEverywhere(rows: Table)
    requires Rectangular(rows) && Same(Flat(rows), Flat(rows))
    ensures forall i :: 0 <= i < |rows| ==> Unanimous(rows[i])
  {
    FlatLength(rows, |rows[0]|);
    forall i | 0 <= i < |rows|
      ensures Unanimous(rows[i])
    {
      forall j, k | 0 <= j < |rows[i]| && 0 <= k < |rows[i]|
        ensures rows[i][j] == rows[i][k]
      {
        assert rows[i][j] in Flat(rows) && rows[i][k] in Flat(rows);
      }
    }
  }

  /** Chance agreement is a proportion; it is total only when one label was ever used. */
  lemma {:induction false} ChanceRange(rows: Table)
    requires Rectangular(rows)
    ensures 0.0 <= ChanceAgreement(rows, |rows[0]|) <= 1.0
    ensures ChanceAgreement(rows, |rows[0]|) == 1.0 ==> forall i :: 0 <= i < |rows| ==> Unanimous(rows[i])
  {
    var n, all := |rows[0]|, Flat(rows);
    FlatLength(rows, n);
    MatchesRange(all, all);
    if Same(all, all) {
      OneLabelEverywhere(rows);
    }
    hide Matches, Flat, Same, Unanimous;
    OneMore(|rows| - 1, n);
    assert |all| == Labels(rows, n) >= 2;
    SquarePositive(|all|);
    RatioToOne(Matches(all, all) as real, Square(|all|) as real);
  }

  lemma SquarePositive(k: int)
    requires k > 0
    ensures Square(k) > 0
  {
  }

  lemma PairsPositive(n: int)
    requires n >= 2
    ensures OrderedPairs(n) > 0
  {
  }

  /** The mean of the items' agreements, over the common denominator. */
  lemma {:induction false} AgreementFromMatches(rows: Table, raters: nat)
    requires raters >= 2 && forall i :: 0 <= i < |rows| ==> |rows[i]| == raters
    ensures TotalAgreement(rows, raters)
         == (TotalMatches(rows) - Labels(rows, raters)) as real / OrderedPairs(raters) as real
  {
    PairsPositive(raters);
    var d := OrderedPairs(raters) as real;
    hide Matches, OrderedPairs;
    if |rows| > 0 {
      var m := |rows| - 1;
      AgreementFromMatches(rows[..m], raters);
      OneMore(m, raters);
      assert Labels(rows, raters) == Labels(rows[..m], raters) + raters;
      hide Labels;
      AddFractions((TotalMatches(rows[..m]) - Labels(rows[..m], raters)) as real,
                   (Matches(rows[m], rows[m]) - raters) as real, d);
    }
  }

  lemma AddFractions(x: real, y: real, d: real)
    requires d > 0.0
    ensures x / d + y / d == (x + y) / d
  {
  }

  lemma Quotient(x: real, k: real, t: real)
    requires k > 0.0 && x * k == t
    ensures x == t / k
  {
  }

  lemma CancelRight(x: real, y: real, k: real)
    requires k > 0.0 && x * k <= y * k
    ensures x <= y
  {
    assert (y - x) * k >= 0.0;
  }

  function Scale(k: int, x: real): real {
    k as real * x
  }

  lemma ObservedPlusOne(items: int, n: int, total: int, observed: real)
    requires items >= 1 && n >= 2
    requires observed == (total - items * n) as real / OrderedPairs(n) as real / items as real
    ensures Scale(n - 1, observed) + 1.0 == total as real / (items * n) as real
  {
    var i, m := items as real, n as real;
    var d := m * (m - 1.0);
    var y := (total as real - i * m) / d;
    assert OrderedPairs(n) as real == d && (items * n) as real == i * m;
    assert y * d == total as real - i * m;
    assert observed * i == y;
    assert observed * i * d == total as real - i * m;
    assert ((m - 1.0) * observed + 1.0) * (i * m) == observed * i * d + i * m;
    Quotient((m - 1.0) * observed + 1.0, i * m, total as real);
  }

  lemma ChanceTimesRaters(items: int, n: int, pooled: int, total: int, chance: real)
    requires items >= 1 && n >= 2 && pooled <= items * total
    requires chance == pooled as real / Square(items * n) as real
    ensures Scale(n, chance) <= total as real / (items * n) as real
  {
    var i, m, t := items as real, n as real, total as real;
    var k := i * m;
    var x := t / k;
    assert (items * n) as real == k && Square(items * n) as real == k * k;
    assert k > 0.0 && x * k == t;
    assert chance * (k * k) == pooled as real;
    assert pooled as real <= (items * total) as real == i * t;
    assert m * chance * (i * k) == chance * (k * k);
    assert i * t == x * (i * k);
    assert i * k > 0.0;
    CancelRight(m * chance, x, i * k);
  }

  lemma KappaFromParts(n: int, observed: real, chance: real)
    requires n >= 2 && observed <= 1.0 && chance < 1.0
    requires Scale(n, chance) <= Scale(n - 1, observed) + 1.0
    ensures -1.0 / (n - 1) as real <= (observed - chance) / (1.0 - chance) <= 1.0
    ensures (observed - chance) / (1.0 - chance) == 1.0 <==> observed == 1.0
  {
    var m := (n - 1) as real;
    var d, k, low := 1.0 - chance, (observed - chance) / (1.0 - chance), -1.0 / m;
    assert k * d == observed - chance;
    assert low * m == -1.0;
    assert Scale(n, chance) == m * chance + chance;
    assert m * (observed - chance) == m * observed - m * chance;
    assert (k * m) * d == m * (observed - chance);
    CancelRight(-1.0, k * m, d);
    CancelRight(low, k, m);
    CancelRight(k, 1.0, d);
  }

  function Observed(rows: Table, raters: nat): real
    requires raters >= 2 && |rows| > 0
  {
    TotalAgreement(rows, raters) / |rows| as real
  }

  /** Chance agreement exceeds observed agreement by a bounded amount. */
  lemma {:induction false} ChanceAgainstObserved(rows: Table)
    requires Rectangular(rows)
    ensures var n := |rows[0]|;
            (Scale(n, ChanceAgreement(rows, n)) <= Scale(n - 1, Observed(rows, n)) + 1.0)
  {
    var n, all := |rows[0]|, Flat(rows);
    var total, pooled := TotalMatches(rows), Matches(all, all);
    AgreementFromMatches(rows, n);
    PooledMatchesBound(rows);
    hide Matches, TotalMatches, TotalAgreement, Flat, Square, OrderedPairs, Scale;
    ObservedPlusOne(|rows|, n, total, Observed(rows, n));
    ChanceTimesRaters(|rows|, n, pooled, total, ChanceAgreement(rows, n));
  }

  lemma {:induction false} ObservedRange(rows: Table)
    requires Rectangular(rows)
    ensures Observed(rows, |rows[0]|) <= 1.0
    ensures Observed(rows, |rows[0]|) == 1.0 <==> forall i :: 0 <= i < |rows| ==> Unanimous(rows[i])
  {
    TotalAgreementRange(rows, |rows[0]|);
    hide TotalAgreement, Unanimous;
    ShareOfItems(TotalAgreement(rows, |rows[0]|), |rows| as real);
  }

  /** Kappa lies between `-1 / (n - 1)` and one, and is one exactly when every
      item's raters are unanimous, the undefined single-label case included. */
  lemma {:induction false} KappaRange(rows: Table)
    requires Rectangular(rows)
    ensures -1.0 / (|rows[0]| - 1) as real <= Kappa(rows) <= 1.0
    ensures Kappa(rows) == 1.0 <==> forall i :: 0 <= i < |rows| ==> Unanimous(rows[i])
  {
    var n := |rows[0]|;
    ObservedRange(rows);
    ChanceRange(rows);
    ChanceAgainstObserved(rows);
    hide Observed, ChanceAgreement, Unanimous, Scale;
    if ChanceAgreement(rows, n) < 1.0 {
      KappaFromParts(n, Observed(rows, n), ChanceAgreement(rows, n));
    } else {
      assert Kappa(rows) == 1.0;
      Quotient(-1.0, 1.0, -1.0);
    }
  }

  lemma ShareOfItems(total: real, items: real)
    requires items >= 1.0 && total <= items
    ensures total / items <= 1.0 && (total / items == 1.0 <==> total == items)
  {
    var q := total / items;
    assert q * items == total;
  }

  // ----- when the lower bound is met -----

  /** The two items were labelled alike, up to who said what. */
  ghost predicate Alike(s: seq<Label>, t: seq<Label>) {
    forall x :: Count(s, x) == Count(t, x)
  }

  lemma SquareOfNothing(a: int, b: int)
    ensures 2 * (a * b) == a * a + b * b <==> a == b
  {
    assert (a - b) * (a - b) == a * a + b * b - 2 * (a * b);
  }

  lemma {:induction false} DotSquaresEqual(s: seq<Label>, t: seq<Label>, cats: seq<Label>)
    ensures 2 * Dot(s, t, cats) == Dot(s, s, cats) + Dot(t, t, cats)
       <==> forall i :: 0 <= i < |cats| ==> Count(s, cats[i]) == Count(t, cats[i])
  {
    hide Count;
    if |cats| > 0 {
      var less, c := cats[..|cats| - 1], cats[|cats| - 1];
      DotSquaresEqual(s, t, less);
      DotSquares(s, t, less);
      SquareOfDifference(Count(s, c), Count(t, c));
      SquareOfNothing(Count(s, c), Count(t, c));
      assert (forall i :: 0 <= i < |cats| ==> Count(s, cats[i]) == Count(t, cats[i]))
        <==> (forall i :: 0 <= i < |less| ==> Count(s, less[i]) == Count(t, less[i])) && Count(s, c) == Count(t, c);
    }
  }

  /** Two rows reach the bound on their matches exactly when they are alike. */
  lemma {:induction false} MatchesEqual(s: seq<Label>, t: seq<Label>)
    ensures 2 * Matches(s, t) == Matches(s, s) + Matches(t, t) <==> Alike(s, t)
  {
    var cats := Distinct(s + t);
    assert forall x :: x in s || x in t ==> x in s + t;
    MatchesByCategory(s, t, cats);
    MatchesByCategory(s, s, cats);
    MatchesByCategory(t, t, cats);
    DotSquaresEqual(s, t, cats);
    hide Dot, Matches;
    if forall i :: 0 <= i < |cats| ==> Count(s, cats[i]) == Count(t, cats[i]) {
      forall x
        ensures Count(s, x) == Count(t, x)
      {
        if x in cats {
          var i :| 0 <= i < |cats| && cats[i] == x;
        }
      }
    }
  }

  lemma {:induction false} FlatAgainstRowEqual(rows: Table, row: seq<Label>)
    ensures 2 * Matches(Flat(rows), row) == TotalMatches(rows) + |rows| * Matches(row, row)
       <==> forall i :: 0 <= i < |rows| ==> Alike(rows[i], row)
  {
    if |rows| == 0 {
      MatchesBound([], row);
      MatchesEqual([], row);
      NoMatches(row);
    } else {
      var m := |rows| - 1;
      hide Matches, Alike;
      FlatAgainstRowEqual(rows[..m], row);
      FlatAgainstRow(rows[..m], row);
      MatchesSplitLeft(Flat(rows[..m]), rows[m], row);
      MatchesBound(rows[m], row);
      MatchesEqual(rows[m], row);
      OneMore(m, Matches(row, row));
      assert (forall i :: 0 <= i < |rows| ==> Alike(rows[i], row))
        <==> (forall i :: 0 <= i < m ==> Alike(rows[..m][i], row)) && Alike(rows[m], row);
    }
  }

  lemma {:induction false} NoMatches(row: seq<Label>)
    ensures Matches([], row) == 0
  {
    if |row| > 0 {
      NoMatches(row[..|row| - 1]);
    }
  }

  ghost predicate AllAlike(rows: Table) {
    forall i, j :: 0 <= i < |rows| && 0 <= j < |rows| ==> Alike(rows[i], rows[j])
  }

  lemma {:induction false} AllAlikeStep(rows: Table)
    requires |rows| > 0
    ensures var m := |rows| - 1;
            AllAlike(rows) <==> AllAlike(rows[..m]) && forall i :: 0 <= i < m ==> Alike(rows[..m][i], rows[m])
  {
    var m := |rows| - 1;
    if AllAlike(rows[..m]) && forall i :: 0 <= i < m ==> Alike(rows[..m][i], rows[m]) {
      forall i, j | 0 <= i < |rows| && 0 <= j < |rows|
        ensures Alike(rows[i], rows[j])
      {
        if i < m && j < m {
          assert Alike(rows[..m][i], rows[..m][j]);
        } else if i < m {
          assert Alike(rows[..m][i], rows[m]);
        } else if j < m {
          assert Alike(rows[..m][j], rows[m]);
        }
      }
    }
    if AllAlike(rows) {
      assert forall i :: 0 <= i < m ==> Alike(rows[i], rows[m]);
    }
  }

  lemma AddRowEqual(m: int, total: int, own: int, pooled: int, cross: int)
    requires pooled <= m * total && 2 * cross <= total + m * own
    ensures pooled + 2 * cross + own == (m + 1) * (total + own)
       <==> pooled == m * total && 2 * cross == total + m * own
  {
    OneMore(m, total + own);
    assert m * (total + own) == m * total + m * own;
  }

  /** The table reaches the Cauchy-Schwarz bound exactly when all its items are alike. */
  lemma {:induction false} PooledMatchesEqual(rows: Table)
    ensures Matches(Flat(rows), Flat(rows)) == |rows| * TotalMatches(rows) <==> AllAlike(rows)
  {
    if |rows| > 0 {
      var m := |rows| - 1;
      var flat, row := Flat(rows[..m]), rows[m];
      hide Matches, Alike;
      PooledMatchesEqual(rows[..m]);
      PooledMatchesBound(rows[..m]);
      MatchesSplitLeft(flat, row, flat + row);
      MatchesSplitRight(flat, flat, row);
      MatchesSplitRight(row, flat, row);
      MatchesBound(flat, row);
      FlatAgainstRow(rows[..m], row);
      FlatAgainstRowEqual(rows[..m], row);
      AllAlikeStep(rows);
      hide AllAlike;
      AddRowEqual(m, TotalMatches(rows[..m]), Matches(row, row), Matches(flat, flat), Matches(flat, row));
    }
  }

  lemma EqualScale(x: real, y: real, k: real)
    requires k > 0.0
    ensures x * k == y * k <==> x == y
  {
    if x < y {
      assert (y - x) * k > 0.0;
    } else if x > y {
      assert (x - y) * k > 0.0;
    }
  }

  lemma ChanceTimesRatersEqual(items: int, n: int, pooled: int, total: int, chance: real)
    requires items >= 1 && n >= 2
    requires chance == pooled as real / Square(items * n) as real
    ensures Scale(n, chance) == total as real / (items * n) as real <==> pooled == items * total
  {
    var i, m, t := items as real, n as real, total as real;
    var k := i * m;
    var x := t / k;
    assert (items * n) as real == k && Square(items * n) as real == k * k;
    assert k > 0.0 && x * k == t;
    assert chance * (k * k) == pooled as real;
    assert m * chance * (i * k) == chance * (k * k);
    assert i * t == x * (i * k);
    assert i * k > 0.0;
    assert (items * total) as real == i * t;
    EqualScale(m * chance, x, i * k);
  }

  lemma KappaLowestIff(n: int, observed: real, chance: real)
    requires n >= 2 && chance < 1.0
    ensures (observed - chance) / (1.0 - chance) == -1.0 / (n - 1) as real <==> Scale(n, chance) == Scale(n - 1, observed) + 1.0
  {
    var m := (n - 1) as real;
    var d, k, low := 1.0 - chance, (observed - chance) / (1.0 - chance), -1.0 / m;
    assert k * d == observed - chance;
    assert low * m == -1.0;
    assert Scale(n, chance) == m * chance + chance;
    assert m * (observed - chance) == m * observed - m * chance;
    assert (k * m) * d == m * (observed - chance);
    EqualScale(-1.0, k * m, d);
    EqualScale(low, k, m);
  }

  lemma {:induction false} ChanceMeetsObserved(rows: Table)
    requires Rectangular(rows)
    ensures var n := |rows[0]|;
            (Scale(n, ChanceAgreement(rows, n)) == Scale(n - 1, Observed(rows, n)) + 1.0) <==> AllAlike(rows)
  {
    var n, all := |rows[0]|, Flat(rows);
    var total, pooled := TotalMatches(rows), Matches(all, all);
    AgreementFromMatches(rows, n);
    PooledMatchesEqual(rows);
    hide Matches, TotalMatches, TotalAgreement, Flat, Square, OrderedPairs, Scale, AllAlike;
    ObservedPlusOne(|rows|, n, total, Observed(rows, n));
    ChanceTimesRatersEqual(|rows|, n, pooled, total, ChanceAgreement(rows, n));
  }

  lemma {:induction false} UnanimousAlike(s: seq<Label>, t: seq<Label>)
    requires Alike(s, t) && |s| == |t| && Unanimous(s)
    ensures Unanimous(t)
  {
    if |s| > 0 {
      CountAll(s, s[0]);
      CountAll(t, s[0]);
    }
  }

  /** The lower bound is met exactly when every item got the same labels, in whatever
      order, and they were not all one: chance then explains everything but itself. */
  lemma {:induction false} LowerBoundIff(rows: Table)
    requires Rectangular(rows)
    ensures Kappa(rows) == -1.0 / (|rows[0]| - 1) as real <==> AllAlike(rows) && !Unanimous(rows[0])
  {
    var n := |rows[0]|;
    KappaRange(rows);
    ChanceRange(rows);
    ChanceMeetsObserved(rows);
    NegativeBound(n);
    if AllAlike(rows) && Unanimous(rows[0]) {
      forall i | 0 <= i < |rows|
        ensures Unanimous(rows[i])
      {
        UnanimousAlike(rows[0], rows[i]);
      }
    }
    hide Observed, ChanceAgreement, Unanimous, Scale, AllAlike;
    if ChanceAgreement(rows, n) < 1.0 {
      KappaLowestIff(n, Observed(rows, n), ChanceAgreement(rows, n));
    } else {
      assert Kappa(rows) == 1.0;
    }
  }

  lemma NegativeBound(n: int)
    requires n >= 2
    ensures -1.0 / (n - 1) as real < 0.0
  {
    var low := -1.0 / (n - 1) as real;
    assert low * (n - 1) as real == -1.0;
  }

  // ----- the program: tallies per row, then marginals over the table -----

  function CountTotal(s: seq<Label>, cats: seq<Label>): nat {
    if |cats| == 0 then 0
    else CountTotal(s, cats[..|cats| - 1]) + Count(s, cats[|cats| - 1])
  }

  lemma {:induction false} CountTotalStep(s: seq<Label>, cats: seq<Label>)
    requires |s| > 0 && Enumerates(cats, [])
    ensures CountTotal(s, cats) == CountTotal(s[..|s| - 1], cats) + if s[|s| - 1] in cats then 1 else 0
  {
    if |cats| > 0 {
      CountTotalStep(s, cats[..|cats| - 1]);
      assert cats == cats[..|cats| - 1] + [cats[|cats| - 1]];
    }
  }

  lemma {:induction false} CountTotalIsLength(s: seq<Label>, cats: seq<Label>)
    requires Enumerates(cats, s)
    ensures CountTotal(s, cats) == |s|
  {
    if |s| == 0 {
      CountTotalEmpty(cats);
    } else {
      assert s == s[..|s| - 1] + [s[|s| - 1]];
      CountTotalIsLength(s[..|s| - 1], cats);
      CountTotalStep(s, cats);
    }
  }

  lemma {:induction false} CountTotalEmpty(cats: seq<Label>)
    ensures CountTotal([], cats) == 0
  {
    if |cats| > 0 {
      CountTotalEmpty(cats[..|cats| - 1]);
    }
  }

  /** The tally loop of one item. */
  method AgreeingPairs(row: seq<Label>) returns (total: int)
    ensures total == Matches(row, row) - |row|
  {
    var keys := Distinct(row);
    total := 0;
    for j := 0 to |keys|
      invariant total == Dot(row, row, keys[..j]) - CountTotal(row, keys[..j])
    {
      var n := Count(row, keys[j]);
      total := total + n * (n - 1);
      assert keys[..j + 1][..j] == keys[..j];
      assert n * (n - 1) == n * n - n;
    }
    assert keys[..|keys|] == keys;
    MatchesByCategory(row, row, keys);
    CountTotalIsLength(row, keys);
  }

  lemma AddSquare(dot: int, m: int, k: int)
    requires k > 0
    ensures dot as real / Square(k) as real + (m as real / k as real) * (m as real / k as real)
         == (dot + m * m) as real / Square(k) as real
  {
    var x, r, d := m as real / k as real, k as real, Square(k) as real;
    assert d == r * r && x * r == m as real;
    assert (x * x) * d == (m * m) as real;
    Quotient(x * x, d, (m * m) as real);
    AddFractions(dot as real, (m * m) as real, d);
  }

  method MarginalAgreement(rows: Table, raters: nat) returns (chance: real)
    requires raters >= 2 && |rows| > 0
    ensures chance == ChanceAgreement(rows, raters)
  {
    var all := Flat(rows);
    var categories := Distinct(all);
    var labels := |rows| * raters;
    OneMore(|rows| - 1, raters);
    assert labels == Labels(rows, raters) > 0;
    chance := 0.0;
    SquarePositive(labels);
    hide Square, Labels;
    for j := 0 to |categories|
      invariant chance == Dot(all, all, categories[..j]) as real / Square(labels) as real
    {
      var m := Count(all, categories[j]);
      var share := m as real / labels as real;
      AddSquare(Dot(all, all, categories[..j]), m, labels);
      assert categories[..j + 1][..j] == categories[..j];
      chance := chance + share * share;
    }
    assert categories[..|categories|] == categories;
    MatchesByCategory(all, all, categories);
  }

  function Sum(values: seq<real>): real {
    if |values| == 0 then 0.0 else Sum(values[..|values| - 1]) + values[|values| - 1]
  }

  method ComputeKappa(assignments: Table) returns (kappa: real)
    ensures kappa == Kappa(assignments)
    ensures assignments == [] || |assignments[0]| < 2 ==> kappa == 0.0
  {
    if |assignments| == 0 {
      return 0.0;
    }
    var raters := |assignments[0]|;
    if raters < 2 {
      return 0.0;
    }
    var agreements: seq<real> := [];
    for i := 0 to |assignments|
      invariant Sum(agreements) == TotalAgreement(assignments[..i], raters)
    {
      var total := AgreeingPairs(assignments[i]);
      var agreement := total as real / (raters * (raters - 1)) as real;
      assert agreement == ItemAgreement(assignments[i], raters);
      assert (agreements + [agreement])[..|agreements|] == agreements;
      assert assignments[..i + 1][..i] == assignments[..i];
      agreements := agreements + [agreement];
    }
    assert assignments[..|assignments|] == assignments;
    var observed := Sum(agreements) / |assignments| as real;
    var chance := MarginalAgreement(assignments, raters);
    if chance >= 1.0 {
      return 1.0;
    }
    kappa := (observed - chance) / (1.0 - chance);
  }

  // ----- what kappa does not depend on -----

  lemma {:induction false} CountIsMultiplicity(s: seq<Label>, x: Label)
    ensures Count(s, x) == multiset(s)[x]
  {
    if |s| > 0 {
      CountIsMultiplicity(s[..|s| - 1], x);
      assert s == s[..|s| - 1] + [s[|s| - 1]];
    }
  }

  lemma {:induction false} DotOfPermutation(s: seq<Label>, t: seq<Label>, cats: seq<Label>)
    requires multiset(s) == multiset(t)
    ensures Dot(s, s, cats) == Dot(t, t, cats)
  {
    if |cats| > 0 {
      DotOfPermutation(s, t, cats[..|cats| - 1]);
      CountIsMultiplicity(s, cats[|cats| - 1]);
      CountIsMultiplicity(t, cats[|cats| - 1]);
    }
  }

  lemma {:induction false} MatchesOfPermutation(s: seq<Label>, t: seq<Label>)
    requires multiset(s) == multiset(t)
    ensures Matches(s, s) == Matches(t, t) && |s| == |t|
  {
    var cats := Distinct(s);
    assert |multiset(s)| == |s| && |multiset(t)| == |t|;
    forall x | x in t
      ensures x in s
    {
      assert x in multiset(t);
    }
    MatchesByCategory(s, s, cats);
    MatchesByCategory(t, t, cats);
    DotOfPermutation(s, t, cats);
  }

  ghost predicate RatersPermuted(rows: Table, rows': Table) {
    |rows| == |rows'| && forall i :: 0 <= i < |rows| ==> multiset(rows[i]) == multiset(rows'[i])
  }

  lemma {:induction false} PermuteRatersParts(rows: Table, rows': Table, raters: nat)
    requires RatersPermuted(rows, rows') && raters >= 2
    ensures TotalAgreement(rows, raters) == TotalAgreement(rows', raters)
    ensures multiset(Flat(rows)) == multiset(Flat(rows'))
  {
    if |rows| > 0 {
      var m := |rows| - 1;
      PermuteRatersParts(rows[..m], rows'[..m], raters);
      MatchesOfPermutation(rows[m], rows'[m]);
    }
  }

  /** Reordering the raters, even differently for every item, leaves kappa alone. */
  lemma {:induction false} KappaIgnoresRaterOrder(rows: Table, rows': Table)
    requires RatersPermuted(rows, rows')
    ensures Kappa(rows) == Kappa(rows')
  {
    if |rows| > 0 {
      assert |multiset(rows[0])| == |rows[0]| && |multiset(rows'[0])| == |rows'[0]|;
      if |rows[0]| >= 2 {
        PermuteRatersParts(rows, rows', |rows[0]|);
        MatchesOfPermutation(Flat(rows), Flat(rows'));
      }
    }
  }

  lemma {:induction false} RemoveItem(rows: Table, k: nat, raters: nat)
    requires k < |rows| && raters >= 2
    ensures var rest := rows[..k] + rows[k + 1..];
            && TotalAgreement(rows, raters) == TotalAgreement(rest, raters) + ItemAgreement(rows[k], raters)
            && multiset(Flat(rows)) == multiset(Flat(rest)) + multiset(rows[k])
  {
    var m := |rows| - 1;
    var rest := rows[..k] + rows[k + 1..];
    if k == m {
      assert rest == rows[..m];
    } else {
      RemoveItem(rows[..m], k, raters);
      assert rest[..m - 1] == rows[..m][..k] + rows[..m][k + 1..];
      assert rest[m - 1] == rows[m];
    }
  }

  lemma {:induction false} FindLastItem(rows: Table, rows': Table) returns (k: nat)
    requires multiset(rows) == multiset(rows') && |rows| > 0
    ensures k < |rows'| && rows'[k] == rows[|rows| - 1]
    ensures multiset(rows'[..k] + rows'[k + 1..]) == multiset(rows[..|rows| - 1])
  {
    var m := |rows| - 1;
    assert rows == rows[..m] + [rows[m]];
    assert rows[m] in multiset(rows');
    k :| 0 <= k < |rows'| && rows'[k] == rows[m];
    assert rows' == rows'[..k] + [rows'[k]] + rows'[k + 1..];
    var x, all := multiset{rows[m]}, multiset(rows);
    var a, b := multiset(rows'[..k]), multiset(rows'[k + 1..]);
    assert all == multiset(rows[..m]) + x;
    assert all == a + x + b;
    assert a + b == all - x == multiset(rows[..m]);
  }

  lemma {:induction false} PermuteItemsParts(rows: Table, rows': Table, raters: nat)
    requires multiset(rows) == multiset(rows') && raters >= 2
    ensures TotalAgreement(rows, raters) == TotalAgreement(rows', raters)
    ensures multiset(Flat(rows)) == multiset(Flat(rows'))
    ensures |rows| == |rows'|
    decreases |rows|
  {
    assert |multiset(rows)| == |rows| && |multiset(rows')| == |rows'|;
    if |rows| > 0 {
      var k := FindLastItem(rows, rows');
      RemoveItem(rows', k, raters);
      RemoveItem(rows, |rows| - 1, raters);
      var m := |rows| - 1;
      var less, rest := rows[..m], rows'[..k] + rows'[k + 1..];
      assert rows[..m] + rows[m + 1..] == less;
      hide TotalAgreement, Flat, ItemAgreement;
      PermuteItemsParts(less, rest, raters);
    }
  }

  /** Reordering the items leaves kappa alone. */
  lemma {:induction false} KappaIgnoresItemOrder(rows: Table, rows': Table)
    requires Rectangular(rows) && multiset(rows) == multiset(rows')
    ensures Kappa(rows) == Kappa(rows')
  {
    PermuteItemsParts(rows, rows', |rows[0]|);
    assert rows'[0] in multiset(rows);
    MatchesOfPermutation(Flat(rows), Flat(rows'));
  }

  function Rename(s: seq<Label>, names: map<Label, Label>): (t: seq<Label>)
    requires forall x :: x in s ==> x in names
  {
    seq(|s|, i requires 0 <= i < |s| => names[s[i]])
  }

  ghost predicate Injective(names: map<Label, Label>) {
    forall x, y :: x in names && y in names && names[x] == names[y] ==> x == y
  }

  lemma {:induction false} CountRenamed(s: seq<Label>, names: map<Label, Label>, x: Label)
    requires (forall y :: y in s ==> y in names) && x in names && Injective(names)
    ensures Count(Rename(s, names), names[x]) == Count(s, x)
  {
    if |s| > 0 {
      var m := |s| - 1;
      CountRenamed(s[..m], names, x);
      assert Rename(s, names)[..m] == Rename(s[..m], names);
    }
  }

  lemma {:induction false} MatchesRenamed(s: seq<Label>, t: seq<Label>, names: map<Label, Label>)
    requires (forall y :: y in s || y in t ==> y in names) && Injective(names)
    ensures Matches(Rename(s, names), Rename(t, names)) == Matches(s, t)
  {
    if |t| > 0 {
      var m := |t| - 1;
      MatchesRenamed(s, t[..m], names);
      CountRenamed(s, names, t[m]);
      assert Rename(t, names)[..m] == Rename(t[..m], names);
    }
  }

  function RenameAll(rows: Table, names: map<Label, Label>): (renamed: Table)
    requires forall i, x :: 0 <= i < |rows| && x in rows[i] ==> x in names
  {
    seq(|rows|, i requires 0 <= i < |rows| => Rename(rows[i], names))
  }

  lemma {:induction false} FlatRenamed(rows: Table, names: map<Label, Label>)
    requires forall i, x :: 0 <= i < |rows| && x in rows[i] ==> x in names
    ensures forall x :: x in Flat(rows) ==> x in names
    ensures Flat(RenameAll(rows, names)) == Rename(Flat(rows), names)
  {
    if |rows| > 0 {
      var m := |rows| - 1;
      FlatRenamed(rows[..m], names);
      assert RenameAll(rows, names)[..m] == RenameAll(rows[..m], names);
      assert Rename(Flat(rows), names) == Rename(Flat(rows[..m]), names) + Rename(rows[m], names);
    }
  }

  lemma {:induction false} ItemRenamed(row: seq<Label>, names: map<Label, Label>, raters: nat)
    requires (forall x :: x in row ==> x in names) && Injective(names) && raters >= 2
    ensures ItemAgreement(Rename(row, names), raters) == ItemAgreement(row, raters)
  {
    MatchesRenamed(row, row, names);
  }

  lemma {:induction false} AgreementRenamed(rows: Table, names: map<Label, Label>, raters: nat)
    requires (forall i, x :: 0 <= i < |rows| && x in rows[i] ==> x in names) && Injective(names) && raters >= 2
    ensures TotalAgreement(RenameAll(rows, names), raters) == TotalAgreement(rows, raters)
  {
    if |rows| > 0 {
      var m := |rows| - 1;
      hide ItemAgreement, Injective, Rename;
      ItemRenamed(rows[m], names, raters);
      AgreementRenamed(rows[..m], names, raters);
      assert RenameAll(rows, names)[..m] == RenameAll(rows[..m], names);
    }
  }

  /** Renaming the categories injectively leaves kappa alone. */
  lemma {:induction false} KappaIgnoresNames(rows: Table, names: map<Label, Label>)
    requires (forall i, x :: 0 <= i < |rows| && x in rows[i] ==> x in names) && Injective(names)
    ensures Kappa(RenameAll(rows, names)) == Kappa(rows)
  {
    if |rows| > 0 && |rows[0]| >= 2 {
      FlatRenamed(rows, names);
      AgreementRenamed(rows, names, |rows[0]|);
      MatchesRenamed(Flat(rows), Flat(rows), names);
    }
  }
}
