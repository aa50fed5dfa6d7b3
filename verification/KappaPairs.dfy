/** Kappa of `scripts/check_annotator_agreement.py` over counted pairs: who agrees with whom,
    and which labels coincide. */
module KappaPairs {

  import opened Collections
  import opened FleissKappa

  /** The positions at which the two texts of labels coincide. */
  function Coinciding(s: seq<Label>, t: seq<Label>): (pairs: set<(nat, nat)>) {
    set j: nat, k: nat | j < |s| && k < |t| && s[j] == t[k] :: (j, k)
  }

  function Column(s: seq<Label>, x: Label, k: nat): (pairs: set<(nat, nat)>) {
    set j: nat | j < |s| && s[j] == x :: (j, k)
  }

  lemma {:induction false} ColumnCounted(s: seq<Label>, x: Label, k: nat)
    ensures |Column(s, x, k)| == Count(s, x)
  {
    if s == [] {
      assert Column(s, x, k) == {};
    } else {
      var m := |s| - 1;
      ColumnCounted(s[..m], x, k);
      assert Column(s, x, k) == if s[m] == x then Column(s[..m], x, k) + {(m, k)} else Column(s[..m], x, k);
    }
  }

  lemma {:induction false} CoincidingCounted(s: seq<Label>, t: seq<Label>)
    ensures |Coinciding(s, t)| == Matches(s, t)
  {
    if t == [] {
      assert Coinciding(s, t) == {};
    } else {
      var m := |t| - 1;
      CoincidingCounted(s, t[..m]);
      ColumnCounted(s, t[m], m);
      assert Coinciding(s, t) == Coinciding(s, t[..m]) + Column(s, t[m], m);
      assert Coinciding(s, t[..m]) !! Column(s, t[m], m);
    }
  }

  /** Two raters of one item who chose the same label, one way round and the other. */
  function AgreeingRaters(row: seq<Label>): (pairs: set<(nat, nat)>) {
    set j: nat, k: nat | j < |row| && k < |row| && j != k && row[j] == row[k] :: (j, k)
  }

  function Diagonal(n: nat): (pairs: set<(nat, nat)>) {
    set j: nat | j < n :: (j, j)
  }

  lemma {:induction false} DiagonalCounted(n: nat)
    ensures |Diagonal(n)| == n
  {
    if n == 0 {
      assert Diagonal(n) == {};
    } else {
      DiagonalCounted(n - 1);
      assert Diagonal(n) == Diagonal(n - 1) + {(n - 1, n - 1)};
    }
  }

  lemma {:induction false} AgreeingCounted(row: seq<Label>)
    ensures |AgreeingRaters(row)| == Matches(row, row) - |row|
  {
    CoincidingCounted(row, row);
    DiagonalCounted(|row|);
    assert Coinciding(row, row) == AgreeingRaters(row) + Diagonal(|row|);
    assert AgreeingRaters(row) !! Diagonal(|row|);
  }

  function AgreeingPairsIn(rows: Table): nat {
    if rows == [] then 0 else AgreeingPairsIn(rows[..|rows| - 1]) + |AgreeingRaters(rows[|rows| - 1])|
  }

  lemma {:induction false} AgreeingPairsCounted(rows: Table, raters: nat)
    requires forall i :: 0 <= i < |rows| ==> |rows[i]| == raters
    ensures AgreeingPairsIn(rows) == TotalMatches(rows) - Labels(rows, raters)
  {
    if rows != [] {
      var m := |rows| - 1;
      AgreeingPairsCounted(rows[..m], raters);
      AgreeingCounted(rows[m]);
      OneMore(m, raters);
      hide Matches, AgreeingRaters;
    }
  }

  /** The agreeing pairs of raters over all the pairs of an item, averaged over the items. */
  function PairAgreement(rows: Table): real
    requires Rectangular(rows)
  {
    PairsPositive(|rows[0]|);
    AgreeingPairsIn(rows) as real / OrderedPairs(|rows[0]|) as real / |rows| as real
  }

  /** The pairs of labels that coincide over all the pairs in the table. */
  function PairChance(rows: Table): real
    requires Rectangular(rows)
  {
    LabelsPositive(|rows|, |rows[0]|);
    |Coinciding(Flat(rows), Flat(rows))| as real / Square(|rows| * |rows[0]|) as real
  }

  lemma LabelsPositive(items: nat, n: nat)
    requires items > 0 && n > 0
    ensures Square(items * n) > 0
  {
    OneMore(items - 1, n);
    SquarePositive(items * n);
  }

  lemma {:induction false} PartsInPairs(rows: Table)
    requires Rectangular(rows)
    ensures Observed(rows, |rows[0]|) == PairAgreement(rows) && ChanceAgreement(rows, |rows[0]|) == PairChance(rows)
  {
    var n, all := |rows[0]|, Flat(rows);
    CoincidingCounted(all, all);
    AgreeingPairsCounted(rows, n);
    AgreementFromMatches(rows, n);
    hide Matches, Square, OrderedPairs, Coinciding, TotalAgreement, TotalMatches, AgreeingPairsIn, Flat;
  }

  /** What the agreement exceeds chance by, of what it could exceed it by. */
  function Combined(observed: real, chance: real): real {
    if chance >= 1.0 then 1.0 else (observed - chance) / (1.0 - chance)
  }

  /** Kappa over plain counts of pairs. */
  lemma {:induction false} KappaInPairs(rows: Table)
    requires Rectangular(rows)
    ensures Kappa(rows) == Combined(PairAgreement(rows), PairChance(rows))
  {
    PartsInPairs(rows);
    hide PairChance, PairAgreement, Observed, ChanceAgreement;
  }
}
