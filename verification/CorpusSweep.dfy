/** A whole corpus run at one batch size, and what counts as a regression between sizes. */
module CorpusSweep {

  import opened Collections
  import opened Verdicts
  import opened BatchSweep
  import Digits

  // ----- grouping by age band -----

  predicate Batchable(item: Item) {
    item.executable && item.stage1
  }

  /** The places of a band's batchable items among the first `k`, in corpus order. */
  function Places(items: seq<Item>, band: string, k: nat): (places: seq<nat>)
    requires k <= |items|
    ensures forall p :: p in places <==> 0 <= p < k && items[p].executable && items[p].stage1 && items[p].band == band
  {
    if k == 0 then []
    else
      var before := Places(items, band, k - 1);
      if Batchable(items[k - 1]) && items[k - 1].band == band then before + [k - 1] else before
  }

  /** The bands in the order the corpus first mentions them. */
  function Bands(items: seq<Item>, k: nat): (bands: seq<string>)
    requires k <= |items|
    ensures forall b :: b in bands <==> exists p :: 0 <= p < k && Batchable(items[p]) && items[p].band == b
    ensures forall i, j :: 0 <= i < j < |bands| ==> bands[i] != bands[j]
  {
    if k == 0 then []
    else
      var before := Bands(items, k - 1);
      if Batchable(items[k - 1]) && items[k - 1].band !in before then before + [items[k - 1].band] else before
  }

  function At(items: seq<Item>, places: seq<nat>): (there: seq<Item>)
    requires forall i :: 0 <= i < |places| ==> places[i] < |items|
    ensures |there| == |places| && forall i :: 0 <= i < |places| ==> there[i] == items[places[i]]
  {
    seq(|places|, i requires 0 <= i < |places| => items[places[i]])
  }

  function BandItems(items: seq<Item>, band: string): seq<Item> {
    var places := Places(items, band, |items|);
    assert forall i :: 0 <= i < |places| ==> places[i] in places;
    At(items, places)
  }

  /** An item's place within its band, by which it is keyed when it has no id. */
  function Rank(items: seq<Item>, p: nat): nat
    requires p < |items|
  {
    |Places(items, items[p].band, p)|
  }

  function KeyOf(items: seq<Item>, p: nat): string
    requires p < |items|
  {
    ItemKey(items[p], items[p].band, Rank(items, p))
  }

  lemma {:induction false} PlacesGrow(items: seq<Item>, band: string, p: nat, k: nat)
    requires p < k <= |items| && Batchable(items[p]) && items[p].band == band
    ensures |Places(items, band, p)| < |Places(items, band, k)| && Places(items, band, k)[|Places(items, band, p)|] == p
  {
    if k > p + 1 {
      PlacesGrow(items, band, p, k - 1);
    }
  }

  /** In its band's list, a batchable item stands at its rank. */
  lemma {:induction false} StandsAtRank(items: seq<Item>, p: nat)
    requires p < |items| && Batchable(items[p])
    ensures var there := BandItems(items, items[p].band);
            Rank(items, p) < |there| && there[Rank(items, p)] == items[p]
  {
    PlacesGrow(items, items[p].band, p, |items|);
  }

  lemma {:induction false} PlacesRise(items: seq<Item>, band: string, k: nat, i: nat)
    requires k <= |items| && i < |Places(items, band, k)|
    ensures var p := Places(items, band, k)[i];
            p < k && Batchable(items[p]) && items[p].band == band && |Places(items, band, p)| == i
  {
    var before := Places(items, band, k - 1);
    if i < |before| {
      PlacesRise(items, band, k - 1, i);
    }
  }

  /** The corpus's stitching keys are all different. */
  ghost predicate KeysDistinct(items: seq<Item>) {
    forall p, q :: 0 <= p < q < |items| && Batchable(items[p]) && Batchable(items[q]) ==> KeyOf(items, p) != KeyOf(items, q)
  }

  lemma {:induction false} KeyedAt(items: seq<Item>, band: string, i: nat)
    requires i < |BandItems(items, band)|
    ensures |BandItems(items, band)| == |Places(items, band, |items|)|
    ensures var p := Places(items, band, |items|)[i];
            && p < |items| && Batchable(items[p]) && items[p].band == band && Rank(items, p) == i
            && BandItems(items, band)[i] == items[p] && ItemKey(BandItems(items, band)[i], band, i) == KeyOf(items, p)
  {
    PlacesRise(items, band, |items|, i);
  }

  /** The batchable items of the same band that come before. */
  function EarlierInBand(items: seq<Item>, band: string, k: nat): (places: set<nat>) {
    set q: nat | q < k && q < |items| && items[q].executable && items[q].stage1 && items[q].band == band
  }

  lemma {:induction false} PlacesCounted(items: seq<Item>, band: string, k: nat)
    requires k <= |items|
    ensures |Places(items, band, k)| == |EarlierInBand(items, band, k)|
  {
    if k == 0 {
      assert EarlierInBand(items, band, k) == {};
    } else {
      PlacesCounted(items, band, k - 1);
      OneMorePlace(items, band, k);
      hide EarlierInBand;
    }
  }

  lemma {:induction false} OneMorePlace(items: seq<Item>, band: string, k: nat)
    requires 0 < k <= |items|
    ensures var before := EarlierInBand(items, band, k - 1);
            && k - 1 !in before
            && EarlierInBand(items, band, k)
               == if Batchable(items[k - 1]) && items[k - 1].band == band then before + {k - 1} else before
  {
  }

  /** What stands for the id of an item without one. */
  function Standin(band: string, rank: nat): string {
    "<band-" + band + "-item-" + Digits.Decimal(rank) + ">"
  }

  lemma {:induction false} LastMark(a: string, x: string, b: string, y: string)
    requires a + "-item-" + x == b + "-item-" + y && '-' !in x && '-' !in y
    ensures a == b && x == y
  {
    var s := a + "-item-" + x;
    assert s[|a| + 5] == '-' && s[|b| + 5] == '-';
    assert forall k :: |a| + 6 <= k < |s| ==> s[k] == x[k - |a| - 6];
    assert forall k :: |b| + 6 <= k < |s| ==> s[k] == y[k - |b| - 6];
    assert |a| == |b|;
    assert s[..|a|] == a && s[..|b|] == b && s[|a| + 6..] == x && s[|b| + 6..] == y;
  }

  /** A stand-in names its band and its rank, whatever the band is called. */
  lemma {:induction false} StandinNamesItsPlace(band: string, rank: nat, other: string, place: nat)
    requires Standin(band, rank) == Standin(other, place)
    ensures band == other && rank == place
  {
    var x, y := Digits.Decimal(rank), Digits.Decimal(place);
    var s, t := band + "-item-" + x, other + "-item-" + y;
    assert Standin(band, rank) == "<band-" + s + ">" && Standin(other, place) == "<band-" + t + ">";
    assert ("<band-" + s + ">")[6..6 + |s|] == s && ("<band-" + t + ">")[6..6 + |t|] == t;
    NoMark(rank);
    NoMark(place);
    hide Standin;
    LastMark(band, x, other, y);
    Digits.ValueOfDecimal(rank);
    Digits.ValueOfDecimal(place);
  }

  lemma NoMark(n: nat)
    ensures '-' !in Digits.Decimal(n)
  {
    var d := Digits.Decimal(n);
    assert forall i :: 0 <= i < |d| ==> Digits.IsDigit(d[i]);
  }

  /** An item's key in full. */
  lemma {:induction false} KeyInFull(items: seq<Item>, p: nat)
    requires p < |items|
    ensures KeyOf(items, p) == if items[p].id != "" then items[p].id
                               else Standin(items[p].band, |EarlierInBand(items, items[p].band, p)|)
  {
    PlacesCounted(items, items[p].band, p);
    hide Places, EarlierInBand;
  }

  /** Two batchable items go under one key: they share an id, or one has the other's stand-in
      for an id. */
  ghost predicate Clash(items: seq<Item>, p: nat, q: nat)
    requires p < |items| && q < |items|
  {
    && Batchable(items[p]) && Batchable(items[q]) && items[p].id != ""
    && items[p].id == if items[q].id != "" then items[q].id
                      else Standin(items[q].band, |EarlierInBand(items, items[q].band, q)|)
  }

  lemma {:induction false} StandinsDiffer(items: seq<Item>, p: nat, q: nat)
    requires p < q < |items| && Batchable(items[p])
    ensures Standin(items[p].band, |EarlierInBand(items, items[p].band, p)|)
         != Standin(items[q].band, |EarlierInBand(items, items[q].band, q)|)
  {
    var m, n := |EarlierInBand(items, items[p].band, p)|, |EarlierInBand(items, items[q].band, q)|;
    if items[p].band == items[q].band {
      PlacesCounted(items, items[p].band, p);
      PlacesCounted(items, items[p].band, q);
      PlacesGrow(items, items[p].band, p, q);
    }
    hide Standin, EarlierInBand;
    if Standin(items[p].band, m) == Standin(items[q].band, n) {
      StandinNamesItsPlace(items[p].band, m, items[q].band, n);
    }
  }

  lemma {:induction false} SameKeyIff(items: seq<Item>, p: nat, q: nat)
    requires p < q < |items| && Batchable(items[p]) && Batchable(items[q])
    ensures KeyOf(items, p) == KeyOf(items, q) <==> Clash(items, p, q) || Clash(items, q, p)
  {
    KeyInFull(items, p);
    KeyInFull(items, q);
    hide KeyOf, Standin, EarlierInBand;
    StandinsDiffer(items, p, q);
  }

  /** The corpus's keys are all different exactly when no two batchable items share an id and
      none is named like another one's stand-in. */
  lemma {:induction false} KeysDistinctIff(items: seq<Item>)
    ensures KeysDistinct(items) <==> forall p, q :: 0 <= p < |items| && 0 <= q < |items| && p != q ==> !Clash(items, p, q)
  {
    forall p, q | 0 <= p < q < |items| && Batchable(items[p]) && Batchable(items[q])
      ensures KeyOf(items, p) == KeyOf(items, q) <==> Clash(items, p, q) || Clash(items, q, p)
    {
      SameKeyIff(items, p, q);
    }
    assert forall p, q :: 0 <= p < |items| && 0 <= q < |items| && Clash(items, p, q) ==> Batchable(items[p]) && Batchable(items[q]);
    hide KeyOf, Clash, Batchable;
  }

  lemma {:induction false} BandKeysDistinct(items: seq<Item>, band: string)
    requires KeysDistinct(items)
    ensures DistinctKeys(BandItems(items, band), band)
  {
    hide ItemKey, Places, Rank, BandItems, KeyOf;
    var there := BandItems(items, band);
    forall i, j | 0 <= i < j < |there|
      ensures ItemKey(there[i], band, i) != ItemKey(there[j], band, j)
    {
      KeyedAt(items, band, i);
      KeyedAt(items, band, j);
      var p, q := Places(items, band, |items|)[i], Places(items, band, |items|)[j];
      assert p != q;
    }
  }

  // ----- a run at one batch size -----

  /** The reviewer per band; what a node-local one says; whether a passage names a child. */
  type Panel = string -> Reviewer
  type Judge = string -> string -> Option<Verdict>
  type Guard = string -> string -> bool

  ghost predicate PanelAnswers(panel: Panel) {
    forall band :: Answers(panel(band))
  }

  ghost predicate PanelLocal(panel: Panel, judge: Judge) {
    forall band :: Local(panel(band), judge(band))
  }

  ghost predicate BandStopped(items: seq<Item>, band: string, guard: Guard) {
    var there := BandItems(items, band);
    Leaks(AllNodes(there, |there|), guard(band))
  }

  /** What item `p` should be scored on: nothing if its band was stopped, else its own verdicts. */
  ghost function Expected(items: seq<Item>, judge: Judge, guard: Guard, p: nat): seq<Verdict>
    requires p < |items|
  {
    if BandStopped(items, items[p].band, guard) then [] else OwnVerdicts(items[p].nodes, judge(items[p].band))
  }

  /** The structural findings of the first `k` bands. */
  ghost function ExpectedStructural(items: seq<Item>, judge: Judge, guard: Guard, bands: seq<string>): nat {
    if bands == [] then 0
    else
      var band := bands[|bands| - 1];
      ExpectedStructural(items, judge, guard, bands[..|bands| - 1])
      + if BandStopped(items, band, guard) then 0 else BandStructural(BandItems(items, band), judge(band))
  }

  datatype SizeReport = SizeReport(batchSize: int, outcomes: seq<Outcome>, structural: nat)

  /** The record holds item `p`'s expected verdicts for every batchable `p` of these bands. */
  ghost predicate Recorded(items: seq<Item>, judge: Judge, guard: Guard, record: Record, bands: seq<string>) {
    forall p :: 0 <= p < |items| && Batchable(items[p]) && items[p].band in bands ==>
      KeyOf(items, p) in record && record[KeyOf(items, p)] == Expected(items, judge, guard, p)
  }

  function Emptied(items: seq<Item>, band: string, there: seq<Item>, k: nat): (record: Record)
    requires k <= |there|
    ensures forall itemKey :: itemKey in record <==> exists i :: 0 <= i < k && itemKey == ItemKey(there[i], band, i)
    ensures forall itemKey :: itemKey in record ==> record[itemKey] == []
  {
    if k == 0 then map[] else Emptied(items, band, there, k - 1)[ItemKey(there[k - 1], band, k - 1) := []]
  }

  lemma {:induction false} RecordBand(items: seq<Item>, judge: Judge, guard: Guard, record: Record,
        bands: seq<string>, band: string, more: Record)
    requires KeysDistinct(items) && Recorded(items, judge, guard, record, bands) && band !in bands
    requires KeyedBy(more, BandItems(items, band), band)
    requires if BandStopped(items, band, guard) then forall itemKey :: itemKey in more ==> more[itemKey] == []
             else OwnRecords(more, BandItems(items, band), band, judge(band))
    ensures Recorded(items, judge, guard, record + more, bands + [band])
  {
    hide BandStopped, OwnVerdicts, ItemKey, Places, Rank, BandItems, KeyOf, KeysDistinct;
    forall p | 0 <= p < |items| && Batchable(items[p]) && items[p].band in bands + [band]
      ensures KeyOf(items, p) in record + more && (record + more)[KeyOf(items, p)] == Expected(items, judge, guard, p)
    {
      if items[p].band == band {
        KeyInBand(items, p);
      } else {
        assert items[p].band in bands;
        KeyNotInOther(items, p, band);
      }
    }
  }

  lemma {:induction false} KeyInBand(items: seq<Item>, p: nat)
    requires p < |items| && Batchable(items[p])
    ensures var band := items[p].band;
            var there, i := BandItems(items, band), Rank(items, p);
            i < |there| && there[i] == items[p] && KeyOf(items, p) == ItemKey(there[i], band, i)
  {
    StandsAtRank(items, p);
  }

  /** No other band's items share a batchable item's key. */
  lemma {:induction false} KeyNotInOther(items: seq<Item>, p: nat, band: string)
    requires KeysDistinct(items) && p < |items| && Batchable(items[p]) && items[p].band != band
    ensures forall i :: 0 <= i < |BandItems(items, band)| ==> ItemKey(BandItems(items, band)[i], band, i) != KeyOf(items, p)
  {
    hide ItemKey, Places, Rank, BandItems, KeyOf;
    forall i | 0 <= i < |BandItems(items, band)|
      ensures ItemKey(BandItems(items, band)[i], band, i) != KeyOf(items, p)
    {
      KeyedAt(items, band, i);
      var q := Places(items, band, |items|)[i];
      assert q != p;
    }
  }

  type Probe = Item -> (seq<Verdict>, bool)

  /** One item's outcome: skipped, or scored on what the sweep recorded, or probed on its own. */
  function Scored(item: Item, recorded: seq<Verdict>, probe: Probe): (o: Outcome)
    ensures o.id == item.id && o.taxonomy == item.taxonomy && o.draws == []
    ensures o.status in [Favourable(item), Adverse(item)]
  {
    if !item.executable then Outcome(item.id, item.taxonomy, Classify(item, [], false), [], [])
    else if item.stage1 then Outcome(item.id, item.taxonomy, Classify(item, recorded, false), recorded, [])
    else
      var (observed, raised) := probe(item);
      Outcome(item.id, item.taxonomy, Classify(item, observed, raised), observed, [])
  }

  ghost predicate ExpectedOutcomes(items: seq<Item>, judge: Judge, guard: Guard, probe: Probe, outcomes: seq<Outcome>) {
    && |outcomes| == |items|
    && forall p :: 0 <= p < |items| ==> outcomes[p] == Scored(items[p], Expected(items, judge, guard, p), probe)
  }

  /** Each outcome is of its item, with one of the two statuses the item can have. */
  ghost predicate OutcomesOf(items: seq<Item>, outcomes: seq<Outcome>) {
    && |outcomes| == |items|
    && forall p :: 0 <= p < |items| ==>
         && outcomes[p].id == items[p].id && outcomes[p].taxonomy == items[p].taxonomy
         && outcomes[p].status in [Favourable(items[p]), Adverse(items[p])]
  }

  method SweepBands(items: seq<Item>, batchSize: int, panel: Panel, guard: Guard, ghost judge: Judge)
    returns (record: Record, structural: nat)
    requires PanelAnswers(panel)
    ensures PanelLocal(panel, judge) ==> structural == ExpectedStructural(items, judge, guard, Bands(items, |items|))
    ensures PanelLocal(panel, judge) && KeysDistinct(items) ==> Recorded(items, judge, guard, record, Bands(items, |items|))
  {
    hide Bands, BandItems, Places, KeysDistinct, Recorded, BandStopped, OwnRecords, KeyedBy, Local, Answers,
        DistinctKeys, BandStructural;
    var bands := Bands(items, |items|);
    record, structural := map[], 0;
    NothingRecorded(items, judge, guard, record);
    for b := 0 to |bands|
      invariant PanelLocal(panel, judge) ==> structural == ExpectedStructural(items, judge, guard, bands[..b])
      invariant PanelLocal(panel, judge) && KeysDistinct(items) ==> Recorded(items, judge, guard, record, bands[..b])
    {
      var more, collapsed := RunBand(items, bands[b], batchSize, panel, guard, judge);
      assert bands[..b + 1][..b] == bands[..b] && bands[..b + 1] == bands[..b] + [bands[b]];
      if PanelLocal(panel, judge) && KeysDistinct(items) {
        RecordBand(items, judge, guard, record, bands[..b], bands[b], more);
      }
      record, structural := record + more, structural + collapsed;
    }
    assert bands[..|bands|] == bands;
  }

  /** One band of the run; a stopped band leaves empty records. */
  method RunBand(items: seq<Item>, band: string, batchSize: int, panel: Panel, guard: Guard, ghost judge: Judge)
    returns (more: Record, structural: nat)
    requires PanelAnswers(panel)
    ensures KeyedBy(more, BandItems(items, band), band)
    ensures BandStopped(items, band, guard) ==> structural == 0 && forall itemKey :: itemKey in more ==> more[itemKey] == []
    ensures !BandStopped(items, band, guard) && PanelLocal(panel, judge) ==>
              structural == BandStructural(BandItems(items, band), judge(band))
    ensures !BandStopped(items, band, guard) && PanelLocal(panel, judge) && KeysDistinct(items) ==>
              OwnRecords(more, BandItems(items, band), band, judge(band))
  {
    hide BandItems, Places, KeysDistinct, OwnRecords, Local, Answers, DistinctKeys, BandStructural, Leaks, ItemKey;
    var there := BandItems(items, band);
    var probe := SweepBand(band, there, batchSize, panel(band), guard(band), judge(band));
    if KeysDistinct(items) {
      BandKeysDistinct(items, band);
    }
    if probe.None? {
      more, structural := Emptied(items, band, there, |there|), 0;
    } else {
      more, structural := probe.value.byItem, probe.value.structural;
    }
  }

  lemma {:induction false} NothingRecorded(items: seq<Item>, judge: Judge, guard: Guard, record: Record)
    ensures Recorded(items, judge, guard, record, [])
    ensures ExpectedStructural(items, judge, guard, []) == 0
  {
  }

  // ----- what the sweep catches -----

  /** The verdict a node is scored on: a flag where the reviewer gave none. */
  function Answer(judge: string -> Option<Verdict>, prose: string): Verdict {
    match judge(prose)
    case None => Flag
    case Some(v) => v
  }

  lemma {:induction false} OwnVerdictsAreAnswers(proses: seq<string>, judge: string -> Option<Verdict>, v: Verdict)
    ensures v in OwnVerdicts(proses, judge) <==> exists j :: 0 <= j < |proses| && Answer(judge, proses[j]) == v
  {
    if proses != [] {
      var m := |proses| - 1;
      OwnVerdictsAreAnswers(proses[..m], judge, v);
      OwnVerdictsStep(proses, judge);
      hide GenuineVerdicts, GapFlags;
      assert v in OwnVerdicts(proses, judge) <==> v in OwnVerdicts(proses[..m], judge) || Answer(judge, proses[m]) == v;
      if j :| 0 <= j < |proses| && Answer(judge, proses[j]) == v && j < m {
        assert proses[..m][j] == proses[j];
      }
      if j :| 0 <= j < m && Answer(judge, proses[..m][j]) == v {
        assert proses[j] == proses[..m][j];
      }
    }
  }

  /** A band is stopped exactly when some passage of one of its batchable items names a child. */
  lemma {:induction false} StoppedIff(items: seq<Item>, band: string, guard: Guard)
    ensures BandStopped(items, band, guard)
       <==> exists p, j :: 0 <= p < |items| && Batchable(items[p]) && items[p].band == band
              && 0 <= j < |items[p].nodes| && guard(band)(items[p].nodes[j])
  {
    var there := BandItems(items, band);
    if BandStopped(items, band, guard) {
      var i, j := LeakAmong(there, |there|, guard(band));
      KeyedAt(items, band, i);
      assert guard(band)(items[Places(items, band, |items|)[i]].nodes[j]);
    }
    if p, j :| 0 <= p < |items| && Batchable(items[p]) && items[p].band == band
               && 0 <= j < |items[p].nodes| && guard(band)(items[p].nodes[j]) {
      StandsAtRank(items, p);
      LeakShows(there, |there|, guard(band), Rank(items, p), j);
    }
  }

  lemma {:induction false} LeakAmong(there: seq<Item>, k: nat, leaks: string -> bool) returns (i: nat, j: nat)
    requires k <= |there| && Leaks(AllNodes(there, k), leaks)
    ensures i < k && j < |there[i].nodes| && leaks(there[i].nodes[j])
  {
    var n: Node :| n in AllNodes(there, k) && leaks(n.prose);
    if n in AllNodes(there, k - 1) {
      i, j := LeakAmong(there, k - 1, leaks);
    } else {
      i := k - 1;
      j :| 0 <= j < |there[i].nodes| && Keyed(i, there[i].nodes)[j] == n;
    }
  }

  lemma {:induction false} LeakShows(there: seq<Item>, k: nat, leaks: string -> bool, i: nat, j: nat)
    requires i < k <= |there| && j < |there[i].nodes| && leaks(there[i].nodes[j])
    ensures Leaks(AllNodes(there, k), leaks)
  {
    if i < k - 1 {
      LeakShows(there, k - 1, leaks, i, j);
      var n: Node :| n in AllNodes(there, k - 1) && leaks(n.prose);
      assert n in AllNodes(there, k);
    } else {
      var n := Keyed(i, there[i].nodes)[j];
      assert n.prose == there[i].nodes[j] && n in AllNodes(there, k);
    }
  }

  /** What the sweep makes of a stage-1 item: an attack is caught exactly when a node of its
      own is judged at least as severe as expected, a control over-blocked exactly when one
      reaches a flag; in a stopped band nothing is judged. */
  ghost predicate JudgedByItself(items: seq<Item>, judge: Judge, guard: Guard, p: nat, status: Status)
    requires p < |items|
  {
    var item := items[p];
    var severe := (least: Verdict) =>
      least == Pass || (!BandStopped(items, item.band, guard)
        && exists j :: 0 <= j < |item.nodes| && AtLeast(Answer(judge(item.band), item.nodes[j]), least));
    && (!item.control ==> (status == Caught <==> severe(item.expected)) && (status == Missed <==> !severe(item.expected)))
    && (item.control ==> (status == ControlOverBlock <==> severe(Flag)) && (status == ControlOk <==> !severe(Flag)))
  }

  lemma {:induction false} ScoredByItself(items: seq<Item>, judge: Judge, guard: Guard, probe: Probe, p: nat)
    requires p < |items| && items[p].stage1 && Scorable(items[p])
    ensures JudgedByItself(items, judge, guard, p, Scored(items[p], Expected(items, judge, guard, p), probe).status)
  {
    var item, observed := items[p], Expected(items, judge, guard, p);
    StatusMeans(item, observed, false);
    hide Classify, BandStopped, OwnVerdicts, Adverse, Favourable;
    ReachedByNode(items, judge, guard, p, item.expected);
    ReachedByNode(items, judge, guard, p, Flag);
  }

  lemma {:induction false} ReachedByNode(items: seq<Item>, judge: Judge, guard: Guard, p: nat, least: Verdict)
    requires p < |items|
    ensures var item := items[p];
            Reaches(Expected(items, judge, guard, p), least) <==>
              least == Pass || (!BandStopped(items, item.band, guard)
                && exists j :: 0 <= j < |item.nodes| && AtLeast(Answer(judge(item.band), item.nodes[j]), least))
  {
    var item := items[p];
    hide BandStopped, OwnVerdicts, Answer, AtLeast;
    forall v
      ensures v in OwnVerdicts(item.nodes, judge(item.band))
         <==> exists j :: 0 <= j < |item.nodes| && Answer(judge(item.band), item.nodes[j]) == v
    {
      OwnVerdictsAreAnswers(item.nodes, judge(item.band), v);
    }
    if j :| 0 <= j < |item.nodes| && AtLeast(Answer(judge(item.band), item.nodes[j]), least) {
      assert Answer(judge(item.band), item.nodes[j]) in OwnVerdicts(item.nodes, judge(item.band));
    }
  }

  /** A guard that stops on the prose its band's judge says nothing about. */
  function Silent(judge: Judge): Guard {
    band => prose => judge(band)(prose).None?
  }

  lemma {:induction false} GapsAreSilence(nodes: seq<Node>, judge: string -> Option<Verdict>)
    ensures GapsOf(nodes, Judged(nodes, judge)) != [] <==> Leaks(nodes, prose => judge(prose).None?)
  {
    if nodes != [] {
      var k := |nodes| - 1;
      GapsAreSilence(nodes[..k], judge);
      assert Judged(nodes, judge)[..k] == Judged(nodes[..k], judge);
      assert nodes == nodes[..k] + [nodes[k]];
      hide Judged, GapsOf;
      GapsStep(nodes, judge);
    }
  }

  lemma {:induction false} GapsStep(nodes: seq<Node>, judge: string -> Option<Verdict>)
    requires nodes != []
    ensures var k := |nodes| - 1;
            GapsOf(nodes, Judged(nodes, judge)) != []
            <==> GapsOf(nodes[..k], Judged(nodes, judge)[..k]) != [] || judge(nodes[k].prose).None?
  {
  }

  /** The bands that the guard lets pass and in which some node gets no answer. */
  ghost function Unanswered(items: seq<Item>, judge: Judge, guard: Guard, bands: seq<string>): (some: set<string>) {
    set band | band in bands && !BandStopped(items, band, guard) && BandStopped(items, band, Silent(judge))
  }

  lemma {:induction false} OneMoreBand(items: seq<Item>, judge: Judge, guard: Guard, bands: seq<string>)
    requires bands != [] && bands[|bands| - 1] !in bands[..|bands| - 1]
    ensures var band, more := bands[|bands| - 1], Unanswered(items, judge, guard, bands[..|bands| - 1]);
            && band !in more
            && Unanswered(items, judge, guard, bands)
               == if !BandStopped(items, band, guard) && BandStopped(items, band, Silent(judge)) then more + {band} else more
  {
    hide BandStopped;
    assert bands == bands[..|bands| - 1] + [bands[|bands| - 1]];
  }

  lemma {:induction false} StructuralOf(items: seq<Item>, judge: Judge, band: string)
    ensures BandStructural(BandItems(items, band), judge(band)) == if BandStopped(items, band, Silent(judge)) then 1 else 0
  {
    var there := BandItems(items, band);
    GapsAreSilence(AllNodes(there, |there|), judge(band));
    StoppedBySilence(items, judge, band);
    hide BandStopped, GapsOf, Judged, AllNodes, BandItems;
  }

  lemma {:induction false} OneMoreExpected(items: seq<Item>, judge: Judge, guard: Guard, bands: seq<string>)
    requires bands != []
    ensures var band := bands[|bands| - 1];
            ExpectedStructural(items, judge, guard, bands)
            == ExpectedStructural(items, judge, guard, bands[..|bands| - 1])
               + if BandStopped(items, band, guard) then 0 else BandStructural(BandItems(items, band), judge(band))
  {
    hide BandStopped, BandStructural, BandItems;
  }

  lemma {:induction false} NoBands(items: seq<Item>, judge: Judge, guard: Guard)
    ensures ExpectedStructural(items, judge, guard, []) == 0 && Unanswered(items, judge, guard, []) == {}
  {
    hide BandStopped;
  }

  /** The structural findings of a run are as many as there are such bands. */
  lemma {:induction false} StructuralCounts(items: seq<Item>, judge: Judge, guard: Guard, bands: seq<string>)
    requires forall i, j :: 0 <= i < j < |bands| ==> bands[i] != bands[j]
    ensures ExpectedStructural(items, judge, guard, bands) == |Unanswered(items, judge, guard, bands)|
  {
    hide *;
    if bands == [] {
      NoBands(items, judge, guard);
    } else {
      var k := |bands| - 1;
      StructuralCounts(items, judge, guard, bands[..k]);
      StructuralOf(items, judge, bands[k]);
      OneMoreBand(items, judge, guard, bands);
      OneMoreExpected(items, judge, guard, bands);
    }
  }

  lemma {:induction false} StoppedBySilence(items: seq<Item>, judge: Judge, band: string)
    ensures var there := BandItems(items, band);
            BandStopped(items, band, Silent(judge)) <==> Leaks(AllNodes(there, |there|), prose => judge(band)(prose).None?)
  {
    var there := BandItems(items, band);
    assert Silent(judge)(band) == (prose => judge(band)(prose).None?);
  }

  /** What is on record for one item, without the batches: the answers for its own nodes, in
      number and in kind, if it goes through the safety stage and the guard let its band pass,
      or what its own probe returned. */
  ghost predicate ObservedByItself(items: seq<Item>, judge: Judge, guard: Guard, probe: Probe, p: nat, o: Outcome)
    requires p < |items|
  {
    var item := items[p];
    if !item.executable then o.observed == [] && o.status == Skipped
    else if item.stage1 then
      && |o.observed| == (if BandStopped(items, item.band, guard) then 0 else |item.nodes|)
      && (forall v :: v in o.observed
                 <==> && !BandStopped(items, item.band, guard)
                      && exists j :: 0 <= j < |item.nodes| && Answer(judge(item.band), item.nodes[j]) == v)
      && (item.guarded ==> o.status == Missed)
    else
      && o.observed == probe(item).0
      && (item.guarded ==> o.status == if probe(item).1 then Caught else Missed)
  }

  lemma {:induction false} OnRecordByItself(items: seq<Item>, judge: Judge, guard: Guard, probe: Probe, p: nat)
    requires p < |items|
    ensures ObservedByItself(items, judge, guard, probe, p, Scored(items[p], Expected(items, judge, guard, p), probe))
  {
    var item := items[p];
    OnePerNode(item.nodes, judge(item.band));
    forall v
      ensures v in OwnVerdicts(item.nodes, judge(item.band))
         <==> exists j :: 0 <= j < |item.nodes| && Answer(judge(item.band), item.nodes[j]) == v
    {
      OwnVerdictsAreAnswers(item.nodes, judge(item.band), v);
    }
    hide OwnVerdicts, BandStopped, Answer, IsCaught;
  }

  /** The full corpus at one batch size. With a node-local reviewer and distinct keys the
      outcomes, and the count of structural findings, do not mention the batch size. */
  method RunAtBatchSize(items: seq<Item>, batchSize: int, panel: Panel, guard: Guard, probe: Probe, ghost judge: Judge)
    returns (report: SizeReport)
    requires PanelAnswers(panel)
    ensures report.batchSize == batchSize && OutcomesOf(items, report.outcomes)
    ensures PanelLocal(panel, judge) ==> report.structural == ExpectedStructural(items, judge, guard, Bands(items, |items|))
    ensures PanelLocal(panel, judge) && KeysDistinct(items) ==> ExpectedOutcomes(items, judge, guard, probe, report.outcomes)
    ensures PanelLocal(panel, judge) && KeysDistinct(items) ==>
              forall p :: 0 <= p < |items| && items[p].stage1 && Scorable(items[p])
                ==> JudgedByItself(items, judge, guard, p, report.outcomes[p].status)
    ensures PanelLocal(panel, judge) && KeysDistinct(items) ==>
              forall p :: 0 <= p < |items| ==> ObservedByItself(items, judge, guard, probe, p, report.outcomes[p])
  {
    hide Bands, KeysDistinct, ExpectedStructural, PanelLocal, PanelAnswers, KeyOf, Expected, Classify, Favourable, Adverse,
        JudgedByItself, ObservedByItself;
    var record, structural := SweepBands(items, batchSize, panel, guard, judge);
    var outcomes := [];
    for p := 0 to |items|
      invariant |outcomes| == p
      invariant forall q :: 0 <= q < p ==>
        outcomes[q] == Scored(items[q], if KeyOf(items, q) in record then record[KeyOf(items, q)] else [], probe)
    {
      var key := KeyOf(items, p);
      outcomes := outcomes + [Scored(items[p], if key in record then record[key] else [], probe)];
    }
    report := SizeReport(batchSize, outcomes, structural);
    if PanelLocal(panel, judge) && KeysDistinct(items) {
      RecordedOutcomes(items, judge, guard, probe, record, outcomes);
      forall p | 0 <= p < |items| && items[p].stage1 && Scorable(items[p])
        ensures JudgedByItself(items, judge, guard, p, report.outcomes[p].status)
      {
        ScoredByItself(items, judge, guard, probe, p);
      }
      forall p | 0 <= p < |items|
        ensures ObservedByItself(items, judge, guard, probe, p, report.outcomes[p])
      {
        OnRecordByItself(items, judge, guard, probe, p);
      }
    }
  }

  lemma {:induction false} RecordedOutcomes(items: seq<Item>, judge: Judge, guard: Guard, probe: Probe,
        record: Record, outcomes: seq<Outcome>)
    requires Recorded(items, judge, guard, record, Bands(items, |items|)) && |outcomes| == |items|
    requires forall q :: 0 <= q < |items| ==>
      outcomes[q] == Scored(items[q], if KeyOf(items, q) in record then record[KeyOf(items, q)] else [], probe)
    ensures ExpectedOutcomes(items, judge, guard, probe, outcomes)
  {
    hide Expected, KeyOf, Classify;
    forall p | 0 <= p < |items|
      ensures outcomes[p] == Scored(items[p], Expected(items, judge, guard, p), probe)
    {
      if Batchable(items[p]) {
        assert items[p].band in Bands(items, |items|);
      }
    }
  }

  // ----- regressions -----

  datatype Kind = StatusKind | SeverityKind | CatchRateKind | StructuralKind

  datatype Regression = Regression(batchSize: int, kind: Kind, subject: string)

  predicate IsControl(o: Outcome) {
    o.status == ControlOk || o.status == ControlOverBlock
  }

  /** One item at the baseline and at another size. */
  function ItemRegressions(base: Outcome, at: Outcome, batchSize: int): seq<Regression> {
    (if base.status == Caught && at.status != Caught then [Regression(batchSize, StatusKind, at.id)] else [])
    + (if base.status == ControlOk && at.status == ControlOverBlock then [Regression(batchSize, StatusKind, at.id)] else [])
    + if !IsControl(at) && Strongest(at.observed) < Strongest(base.observed) then [Regression(batchSize,
        SeverityKind, at.id)] else []
  }

  /** Indexing by id keeps the last outcome of an id. */
  function ById(outcomes: seq<Outcome>): map<string, Outcome> {
    if outcomes == [] then map[]
    else ById(outcomes[..|outcomes| - 1])[outcomes[|outcomes| - 1].id := outcomes[|outcomes| - 1]]
  }

  ghost predicate UniqueIds(outcomes: seq<Outcome>) {
    forall p, q :: 0 <= p < q < |outcomes| ==> outcomes[p].id != outcomes[q].id
  }

  lemma {:induction false} ByIdFinds(outcomes: seq<Outcome>, p: nat)
    requires p < |outcomes| && UniqueIds(outcomes)
    ensures outcomes[p].id in ById(outcomes) && ById(outcomes)[outcomes[p].id] == outcomes[p]
  {
    if p < |outcomes| - 1 {
      ByIdFinds(outcomes[..|outcomes| - 1], p);
    }
  }

  function CountIn(outcomes: seq<Outcome>, taxonomy: string, status: Status): nat {
    if outcomes == [] then 0
    else
      var last := outcomes[|outcomes| - 1];
      CountIn(outcomes[..|outcomes| - 1], taxonomy, status) + if last.taxonomy == taxonomy && last.status == status then 1 else 0
  }

  function Ratio(part: nat, whole: nat): real
    requires whole > 0
  {
    part as real / whole as real
  }

  /** Caught over caught and missed, when the class has anything to score. */
  function CatchRate(outcomes: seq<Outcome>, taxonomy: string): Option<real> {
    var caught, missed := CountIn(outcomes, taxonomy, Caught), CountIn(outcomes, taxonomy, Missed);
    if caught + missed == 0 then None else Some(Ratio(caught, caught + missed))
  }

  predicate RateFell(base: seq<Outcome>, at: seq<Outcome>, taxonomy: string) {
    var was, now := CatchRate(base, taxonomy), CatchRate(at, taxonomy);
    was.Some? && now.Some? && now.value < was.value
  }

  /** The classes in the order the outcomes first mention them. */
  function Classes(outcomes: seq<Outcome>): seq<string> {
    if outcomes == [] then []
    else
      var before, last := Classes(outcomes[..|outcomes| - 1]), outcomes[|outcomes| - 1].taxonomy;
      if last in before then before else before + [last]
  }

  function ItemPart(base: map<string, Outcome>, at: seq<Outcome>, batchSize: int): seq<Regression> {
    if at == [] then []
    else
      var last := at[|at| - 1];
      ItemPart(base, at[..|at| - 1], batchSize)
      + if last.id in base then ItemRegressions(base[last.id], last, batchSize) else []
  }

  function ClassPart(base: seq<Outcome>, at: seq<Outcome>, batchSize: int, classes: seq<string>): seq<Regression> {
    if classes == [] then []
    else
      var last := classes[|classes| - 1];
      ClassPart(base, at, batchSize, classes[..|classes| - 1])
      + if RateFell(base, at, last) then [Regression(batchSize, CatchRateKind, last)] else []
  }

  function Regressions(base: SizeReport, at: SizeReport): seq<Regression> {
    if at.batchSize == base.batchSize then []
    else
      ItemPart(ById(base.outcomes), at.outcomes, at.batchSize)
      + ClassPart(base.outcomes, at.outcomes, at.batchSize, Classes(at.outcomes))
      + if at.structural > base.structural then [Regression(at.batchSize, StructuralKind, "<run>")] else []
  }

  method SizeRegressions(base: SizeReport, at: SizeReport) returns (found: seq<Regression>)
    ensures found == Regressions(base, at)
  {
    if at.batchSize == base.batchSize {
      return [];
    }
    hide ItemRegressions, RateFell, Classes, ById;
    found := [];
    var baseline := ById(base.outcomes);
    for p := 0 to |at.outcomes|
      invariant found == ItemPart(baseline, at.outcomes[..p], at.batchSize)
    {
      assert at.outcomes[..p + 1][..p] == at.outcomes[..p];
      var outcome := at.outcomes[p];
      if outcome.id in baseline {
        found := found + ItemRegressions(baseline[outcome.id], outcome, at.batchSize);
      }
    }
    assert at.outcomes[..|at.outcomes|] == at.outcomes;
    var classes := Classes(at.outcomes);
    ghost var items := found;
    for c := 0 to |classes|
      invariant found == items + ClassPart(base.outcomes, at.outcomes, at.batchSize, classes[..c])
    {
      assert classes[..c + 1][..c] == classes[..c];
      if RateFell(base.outcomes, at.outcomes, classes[c]) {
        found := found + [Regression(at.batchSize, CatchRateKind, classes[c])];
      }
    }
    assert classes[..|classes|] == classes;
    if at.structural > base.structural {
      found := found + [Regression(at.batchSize, StructuralKind, "<run>")];
    }
  }

  // ----- what the regressions say -----

  /** Two runs over one corpus: outcome by outcome the same item, each with one of the two
      statuses that item can have. */
  ghost predicate SameCorpus(items: seq<Item>, base: seq<Outcome>, at: seq<Outcome>) {
    OutcomesOf(items, base) && OutcomesOf(items, at)
  }

  lemma {:induction false} InItemPart(base: map<string, Outcome>, at: seq<Outcome>, batchSize: int, p: nat, r: Regression)
    requires p < |at| && at[p].id in base && r in ItemRegressions(base[at[p].id], at[p], batchSize)
    ensures r in ItemPart(base, at, batchSize)
  {
    hide ItemRegressions;
    if p < |at| - 1 {
      InItemPart(base, at[..|at| - 1], batchSize, p, r);
    }
  }

  /** An item caught at the baseline and missed at the other size is on the list. */
  lemma {:induction false} MissIsListed(base: SizeReport, at: SizeReport, p: nat)
    requires p < |base.outcomes| == |at.outcomes| && base.outcomes[p].id == at.outcomes[p].id && UniqueIds(base.outcomes)
    requires base.batchSize != at.batchSize && base.outcomes[p].status == Caught && at.outcomes[p].status != Caught
    ensures Regression(at.batchSize, StatusKind, at.outcomes[p].id) in Regressions(base, at)
  {
    hide ItemPart, ClassPart, UniqueIds, ById;
    ByIdFinds(base.outcomes, p);
    var r := Regression(at.batchSize, StatusKind, at.outcomes[p].id);
    assert r in ItemRegressions(base.outcomes[p], at.outcomes[p], at.batchSize);
    InItemPart(ById(base.outcomes), at.outcomes, at.batchSize, p, r);
  }

  lemma {:induction false} ItemPartMembers(base: map<string, Outcome>, at: seq<Outcome>, batchSize: int, r: Regression)
    ensures r in ItemPart(base, at, batchSize)
       <==> exists q :: 0 <= q < |at| && at[q].id in base && r in ItemRegressions(base[at[q].id], at[q], batchSize)
  {
    hide ItemRegressions;
    if at != [] {
      var front, last := at[..|at| - 1], at[|at| - 1];
      ItemPartMembers(base, front, batchSize, r);
      assert forall q :: 0 <= q < |front| ==> front[q] == at[q];
    }
  }

  lemma {:induction false} ClassPartMembers(base: seq<Outcome>, at: seq<Outcome>, batchSize: int,
        classes: seq<string>, r: Regression)
    ensures r in ClassPart(base, at, batchSize, classes)
       <==> r.kind.CatchRateKind? && r.batchSize == batchSize && r.subject in classes && RateFell(base, at, r.subject)
  {
    hide RateFell;
    if classes != [] {
      ClassPartMembers(base, at, batchSize, classes[..|classes| - 1], r);
      assert classes == classes[..|classes| - 1] + [classes[|classes| - 1]];
    }
  }

  /** What it means for one item to have got worse. */
  predicate Worsened(base: Outcome, at: Outcome, kind: Kind) {
    match kind
    case StatusKind => (base.status == Caught && at.status != Caught) || (base.status == ControlOk
        && at.status == ControlOverBlock)
    case SeverityKind => !IsControl(at) && Strongest(at.observed) < Strongest(base.observed)
    case _ => false
  }

  lemma {:induction false} ItemRegressionsAre(base: Outcome, at: Outcome, batchSize: int, r: Regression)
    ensures r in ItemRegressions(base, at, batchSize)
       <==> r.batchSize == batchSize && r.subject == at.id && Worsened(base, at, r.kind)
  {
    hide Strongest;
  }

  /** The list is exact. An item is on it for its status or its severity just when it got worse
      in that respect; a class just when its catch rate fell; the run as a whole just when there
      were more structural findings. */
  lemma {:induction false} RegressionsAreExact(items: seq<Item>, base: SizeReport, at: SizeReport, r: Regression)
    requires SameCorpus(items, base.outcomes, at.outcomes) && UniqueIds(base.outcomes) && base.batchSize != at.batchSize
    ensures r in Regressions(base, at)
       <==> r.batchSize == at.batchSize
            && match r.kind
               case StructuralKind => r.subject == "<run>" && at.structural > base.structural
               case CatchRateKind => r.subject in Classes(at.outcomes) && RateFell(base.outcomes, at.outcomes, r.subject)
               case _ => exists p :: 0 <= p < |items| && items[p].id == r.subject && Worsened(base.outcomes[p],
                   at.outcomes[p], r.kind)
  {
    var byId := ById(base.outcomes);
    ItemPartMembers(byId, at.outcomes, at.batchSize, r);
    ClassPartMembers(base.outcomes, at.outcomes, at.batchSize, Classes(at.outcomes), r);
    hide ItemPart, ClassPart, Worsened, RateFell, ById, ItemRegressions, Classes, UniqueIds;
    forall p | 0 <= p < |items|
      ensures at.outcomes[p].id in byId
           && (r in ItemRegressions(byId[at.outcomes[p].id], at.outcomes[p], at.batchSize)
               <==> r.batchSize == at.batchSize && items[p].id == r.subject && Worsened(base.outcomes[p], at.outcomes[p], r.kind))
    {
      ByIdFinds(base.outcomes, p);
      ItemRegressionsAre(base.outcomes[p], at.outcomes[p], at.batchSize, r);
    }
    WorsenedKinds(base, at, r);
  }

  lemma {:induction false} WorsenedKinds(base: SizeReport, at: SizeReport, r: Regression)
    ensures forall a, b :: Worsened(a, b, r.kind) ==> r.kind.StatusKind? || r.kind.SeverityKind?
  {
  }

  ghost predicate Kept(base: seq<Outcome>, at: seq<Outcome>, taxonomy: string) {
    forall p :: 0 <= p < |base| && p < |at| && base[p].taxonomy == taxonomy && base[p].status == Caught ==> at[p].status == Caught
  }

  /** With no scored item of the class newly missed, it has as many to score and no fewer caught. */
  lemma {:induction false} KeptCounts(items: seq<Item>, base: seq<Outcome>, at: seq<Outcome>, taxonomy: string)
    requires SameCorpus(items, base, at) && Kept(base, at, taxonomy)
    ensures CountIn(base, taxonomy, Caught) <= CountIn(at, taxonomy, Caught)
    ensures CountIn(base, taxonomy, Caught) + CountIn(base, taxonomy, Missed)
          == CountIn(at, taxonomy, Caught) + CountIn(at, taxonomy, Missed)
  {
    if items != [] {
      var k := |items| - 1;
      KeptCounts(items[..k], base[..k], at[..k], taxonomy);
      hide Kept;
      assert base[k].status in [Favourable(items[k]), Adverse(items[k])]
            && at[k].status in [Favourable(items[k]), Adverse(items[k])];
      assert Kept(base, at, taxonomy);
    }
  }

  lemma RatioRises(a: nat, b: nat, whole: nat)
    requires whole > 0 && a <= b
    ensures Ratio(a, whole) <= Ratio(b, whole)
  {
    var w, x, y := whole as real, Ratio(a, whole), Ratio(b, whole);
    assert x * w == a as real && y * w == b as real;
    if y < x {
      StrictTimes(y, x, w);
    }
  }

  lemma StrictTimes(x: real, y: real, w: real)
    requires x < y && w > 0.0
    ensures x * w < y * w
  {
  }

  /** A fallen catch rate comes from an item: one of the class, caught at the baseline and
      missed at this size, which the list names too. */
  lemma {:induction false} CatchRateNeedsStatus(items: seq<Item>, base: SizeReport, at: SizeReport,
        taxonomy: string) returns (p: nat)
    requires SameCorpus(items, base.outcomes, at.outcomes) && UniqueIds(base.outcomes) && base.batchSize != at.batchSize
    requires RateFell(base.outcomes, at.outcomes, taxonomy)
    ensures p < |items| && items[p].taxonomy == taxonomy
    ensures base.outcomes[p].status == Caught && at.outcomes[p].status == Missed
    ensures Regression(at.batchSize, StatusKind, items[p].id) in Regressions(base, at)
  {
    hide CountIn, Regressions, UniqueIds, Ratio;
    var was, now := CountIn(base.outcomes, taxonomy, Caught), CountIn(at.outcomes, taxonomy, Caught);
    if Kept(base.outcomes, at.outcomes, taxonomy) {
      KeptCounts(items, base.outcomes, at.outcomes, taxonomy);
      RatioRises(was, now, was + CountIn(base.outcomes, taxonomy, Missed));
    }
    p :| 0 <= p < |base.outcomes| && p < |at.outcomes| && base.outcomes[p].taxonomy == taxonomy
      && base.outcomes[p].status == Caught && at.outcomes[p].status != Caught;
    assert base.outcomes[p].status in [Favourable(items[p]), Adverse(items[p])]
        && at.outcomes[p].status in [Favourable(items[p]), Adverse(items[p])];
    MissIsListed(base, at, p);
  }

  lemma {:induction false} NoItemRegressions(base: map<string, Outcome>, at: seq<Outcome>, batchSize: int)
    requires forall p :: 0 <= p < |at| ==> at[p].id in base ==> base[at[p].id] == at[p]
    ensures ItemPart(base, at, batchSize) == []
  {
    if at != [] {
      NoItemRegressions(base, at[..|at| - 1], batchSize);
      var last := at[|at| - 1];
      assert last.id in base ==> ItemRegressions(base[last.id], last, batchSize) == [];
    }
  }

  lemma {:induction false} NoClassRegressions(at: seq<Outcome>, batchSize: int, classes: seq<string>)
    ensures ClassPart(at, at, batchSize, classes) == []
  {
    if classes != [] {
      NoClassRegressions(at, batchSize, classes[..|classes| - 1]);
    }
  }

  /** Two runs with the same outcomes, and no more structural findings, show no regression. */
  lemma {:induction false} SameRunsDoNotRegress(base: SizeReport, at: SizeReport)
    requires base.outcomes == at.outcomes && at.structural <= base.structural && UniqueIds(base.outcomes)
    ensures Regressions(base, at) == []
  {
    hide ItemPart, ClassPart, UniqueIds, ById;
    forall p | 0 <= p < |at.outcomes|
      ensures at.outcomes[p].id in ById(base.outcomes) ==> ById(base.outcomes)[at.outcomes[p].id] == at.outcomes[p]
    {
      ByIdFinds(base.outcomes, p);
    }
    NoItemRegressions(ById(base.outcomes), at.outcomes, at.batchSize);
    NoClassRegressions(at.outcomes, at.batchSize, Classes(at.outcomes));
  }

  // ----- the sweep over sizes -----

  /** The comparison baseline: the run at size 1 if there is one, else the first. */
  function Baseline(reports: seq<SizeReport>): (base: SizeReport)
    requires reports != []
    ensures base in reports
    ensures (exists r :: r in reports && r.batchSize == 1) ==> base.batchSize == 1
    ensures (forall r :: r in reports ==> r.batchSize != 1) ==> base == reports[0]
  {
    if exists i :: 0 <= i < |reports| && reports[i].batchSize == 1 then reports[FirstOne(reports)] else reports[0]
  }

  function FirstOne(reports: seq<SizeReport>): (i: nat)
    requires exists i :: 0 <= i < |reports| && reports[i].batchSize == 1
    ensures i < |reports| && reports[i].batchSize == 1
    ensures forall j :: 0 <= j < i ==> reports[j].batchSize != 1
  {
    if reports[0].batchSize == 1 then 0
    else
      assert exists i :: 0 <= i < |reports[1..]| && reports[1..][i].batchSize == 1 by {
        var i :| 0 <= i < |reports| && reports[i].batchSize == 1;
        assert reports[1..][i - 1] == reports[i];
      }
      1 + FirstOne(reports[1..])
  }

  function SweepRegressions(base: SizeReport, reports: seq<SizeReport>): seq<Regression> {
    if reports == [] then []
    else SweepRegressions(base, reports[..|reports| - 1]) + Regressions(base, reports[|reports| - 1])
  }

  ghost predicate UniqueItemIds(items: seq<Item>) {
    forall p, q :: 0 <= p < q < |items| ==> items[p].id != items[q].id
  }

  /** A regression of a sweep is a regression of one of its runs. */
  lemma {:induction false} SweepRegressionMembers(base: SizeReport, reports: seq<SizeReport>, r: Regression)
    ensures r in SweepRegressions(base, reports) <==> exists i :: 0 <= i < |reports| && r in Regressions(base, reports[i])
  {
    hide Regressions;
    if reports != [] {
      SweepRegressionMembers(base, reports[..|reports| - 1], r);
      assert reports == reports[..|reports| - 1] + [reports[|reports| - 1]];
    }
  }

  /** Runs every requested size over the corpus and lists every regression against the
      baseline: none at all when the reviewer is node-local. */
  method Sweep(items: seq<Item>, batchSizes: seq<int>, panel: Panel, guard: Guard, probe: Probe, ghost judge: Judge)
    returns (reports: seq<SizeReport>, regressions: seq<Regression>)
    requires PanelAnswers(panel) && batchSizes != []
    ensures |reports| == |batchSizes| && forall i :: 0 <= i < |reports| ==>
          reports[i].batchSize == batchSizes[i] && OutcomesOf(items, reports[i].outcomes)
    ensures regressions == SweepRegressions(Baseline(reports), reports)
    ensures PanelLocal(panel, judge) && KeysDistinct(items) ==>
              forall i :: 0 <= i < |reports| ==> ExpectedOutcomes(items, judge, guard, probe, reports[i].outcomes)
    ensures PanelLocal(panel, judge) && KeysDistinct(items) && UniqueItemIds(items) ==> regressions == []
  {
    hide PanelLocal, PanelAnswers, KeysDistinct, ExpectedOutcomes, OutcomesOf, Regressions, UniqueItemIds,
        ExpectedStructural, Bands, Baseline;
    reports := [];
    ghost var structural := ExpectedStructural(items, judge, guard, Bands(items, |items|));
    for i := 0 to |batchSizes|
      invariant |reports| == i
      invariant forall k :: 0 <= k < i ==> reports[k].batchSize == batchSizes[k] && OutcomesOf(items, reports[k].outcomes)
      invariant PanelLocal(panel, judge) ==> forall k :: 0 <= k < i ==> reports[k].structural == structural
      invariant PanelLocal(panel, judge) && KeysDistinct(items) ==>
        forall k :: 0 <= k < i ==> ExpectedOutcomes(items, judge, guard, probe, reports[k].outcomes)
    {
      var report := RunAtBatchSize(items, batchSizes[i], panel, guard, probe, judge);
      reports := reports + [report];
    }
    var base := Baseline(reports);
    regressions := [];
    for i := 0 to |reports|
      invariant regressions == SweepRegressions(base, reports[..i])
    {
      assert reports[..i + 1][..i] == reports[..i];
      var found := SizeRegressions(base, reports[i]);
      regressions := regressions + found;
    }
    assert reports[..|reports|] == reports;
    if PanelLocal(panel, judge) && KeysDistinct(items) && UniqueItemIds(items) {
      LocalSweepIsClean(items, judge, guard, probe, base, reports);
    }
  }

  lemma {:induction false} SameExpected(items: seq<Item>, judge: Judge, guard: Guard, probe: Probe,
        a: seq<Outcome>, b: seq<Outcome>)
    requires ExpectedOutcomes(items, judge, guard, probe, a) && ExpectedOutcomes(items, judge, guard, probe, b)
    requires UniqueItemIds(items)
    ensures a == b && UniqueIds(a)
  {
    hide Expected;
    forall p | 0 <= p < |items|
      ensures a[p] == b[p] && a[p].id == items[p].id
    {
    }
  }

  lemma {:induction false} LocalSweepIsClean(items: seq<Item>, judge: Judge, guard: Guard, probe: Probe,
        base: SizeReport, reports: seq<SizeReport>)
    requires UniqueItemIds(items) && ExpectedOutcomes(items, judge, guard, probe, base.outcomes)
    requires forall i :: 0 <= i < |reports| ==>
      ExpectedOutcomes(items, judge, guard, probe, reports[i].outcomes) && reports[i].structural == base.structural
    ensures SweepRegressions(base, reports) == []
  {
    hide ExpectedOutcomes, UniqueItemIds, Regressions;
    if reports != [] {
      var last := reports[|reports| - 1];
      LocalSweepIsClean(items, judge, guard, probe, base, reports[..|reports| - 1]);
      SameExpected(items, judge, guard, probe, base.outcomes, last.outcomes);
      SameRunsDoNotRegress(base, last);
    }
  }

  // ----- the regressions in plain counts -----

  /** The outcomes of a class with that status. */
  function Of(outcomes: seq<Outcome>, taxonomy: string, status: Status): (places: set<nat>) {
    set p: nat | p < |outcomes| && outcomes[p].taxonomy == taxonomy && outcomes[p].status == status
  }

  lemma {:induction false} OneMoreCounts(outcomes: seq<Outcome>, taxonomy: string, status: Status)
    requires outcomes != []
    ensures var k := |outcomes| - 1;
            CountIn(outcomes, taxonomy, status) == CountIn(outcomes[..k], taxonomy, status)
            + if outcomes[k].taxonomy == taxonomy && outcomes[k].status == status then 1 else 0
  {
  }

  lemma {:induction false} OneMoreOf(outcomes: seq<Outcome>, taxonomy: string, status: Status)
    requires outcomes != []
    ensures var k := |outcomes| - 1;
            && k !in Of(outcomes[..k], taxonomy, status)
            && Of(outcomes, taxonomy, status)
               == if outcomes[k].taxonomy == taxonomy && outcomes[k].status == status
                  then Of(outcomes[..k], taxonomy, status) + {k} else Of(outcomes[..k], taxonomy, status)
  {
  }

  lemma {:induction false} CountIsSize(outcomes: seq<Outcome>, taxonomy: string, status: Status)
    ensures CountIn(outcomes, taxonomy, status) == |Of(outcomes, taxonomy, status)|
  {
    hide CountIn, Of;
    if outcomes == [] {
      NoneOf(taxonomy, status);
    } else {
      OneMoreCounts(outcomes, taxonomy, status);
      OneMoreOf(outcomes, taxonomy, status);
      CountIsSize(outcomes[..|outcomes| - 1], taxonomy, status);
    }
  }

  lemma {:induction false} NoneOf(taxonomy: string, status: Status)
    ensures CountIn([], taxonomy, status) == 0 && Of([], taxonomy, status) == {}
  {
  }

  /** Fewer caught of as many, cross-multiplied; a class with nothing to score never falls. */
  predicate Fell(wasCaught: nat, wasMissed: nat, nowCaught: nat, nowMissed: nat) {
    nowCaught * (wasCaught + wasMissed) < wasCaught * (nowCaught + nowMissed)
  }

  lemma RatioBelow(a: nat, m: nat, b: nat, n: nat)
    requires m > 0 && n > 0
    ensures Ratio(a, m) < Ratio(b, n) <==> a * n < b * m
  {
    var x, y := Ratio(a, m), Ratio(b, n);
    assert x * m as real == a as real && y * n as real == b as real;
    assert (a * n) as real == x * (m * n) as real && (b * m) as real == y * (m * n) as real;
    if x < y {
      StrictTimes(x, y, (m * n) as real);
    } else if y < x {
      StrictTimes(y, x, (m * n) as real);
    }
  }

  lemma {:induction false} RateFellIff(base: seq<Outcome>, at: seq<Outcome>, taxonomy: string)
    ensures RateFell(base, at, taxonomy)
       <==> Fell(|Of(base, taxonomy, Caught)|, |Of(base, taxonomy, Missed)|,
                 |Of(at, taxonomy, Caught)|, |Of(at, taxonomy, Missed)|)
  {
    CountIsSize(base, taxonomy, Caught);
    CountIsSize(base, taxonomy, Missed);
    CountIsSize(at, taxonomy, Caught);
    CountIsSize(at, taxonomy, Missed);
    hide Of, CountIn, Ratio;
    var a, m := CountIn(at, taxonomy, Caught), CountIn(at, taxonomy, Missed);
    var b, n := CountIn(base, taxonomy, Caught), CountIn(base, taxonomy, Missed);
    if a + m > 0 && b + n > 0 {
      RatioBelow(a, a + m, b, b + n);
    }
  }

  lemma {:induction false} ScoredIsMentioned(outcomes: seq<Outcome>, taxonomy: string)
    requires CatchRate(outcomes, taxonomy).Some?
    ensures taxonomy in Classes(outcomes)
  {
    CountIsSize(outcomes, taxonomy, Caught);
    CountIsSize(outcomes, taxonomy, Missed);
    var p :| p in Of(outcomes, taxonomy, Caught) + Of(outcomes, taxonomy, Missed);
    Mentioned(outcomes, p);
  }

  lemma {:induction false} Mentioned(outcomes: seq<Outcome>, p: nat)
    requires p < |outcomes|
    ensures outcomes[p].taxonomy in Classes(outcomes)
  {
    if p < |outcomes| - 1 {
      Mentioned(outcomes[..|outcomes| - 1], p);
    }
  }

  /** Some verdict at the baseline is above a pass and above every verdict at the other size. */
  ghost predicate Weakened(base: seq<Verdict>, at: seq<Verdict>) {
    exists v :: v in base && v != Pass && forall w :: w in at ==> !AtLeast(w, v)
  }

  lemma {:induction false} WeakenedIff(base: seq<Verdict>, at: seq<Verdict>)
    ensures Strongest(at) < Strongest(base) <==> Weakened(base, at)
  {
    assert forall v: Verdict, w: Verdict :: AtLeast(w, v) <==> w.Rank() >= v.Rank();
    assert forall v: Verdict :: v != Pass <==> v.Rank() > 0;
    hide Strongest, AtLeast;
  }

  /** What one item got worse in, status by status and verdict by verdict. */
  ghost predicate GotWorse(base: Outcome, at: Outcome, kind: Kind) {
    match kind
    case StatusKind =>
      (base.status == Caught && at.status != Caught) || (base.status == ControlOk && at.status == ControlOverBlock)
    case SeverityKind => at.status !in [ControlOk, ControlOverBlock] && Weakened(base.observed, at.observed)
    case CatchRateKind => false
    case StructuralKind => false
  }

  lemma {:induction false} SomeoneGotWorse(items: seq<Item>, base: seq<Outcome>, at: seq<Outcome>, r: Regression)
    requires |base| == |items| == |at|
    ensures (exists p :: 0 <= p < |items| && items[p].id == r.subject && Worsened(base[p], at[p], r.kind))
       <==> exists p :: 0 <= p < |items| && items[p].id == r.subject && GotWorse(base[p], at[p], r.kind)
  {
    hide Worsened, GotWorse;
    forall p | 0 <= p < |items|
      ensures Worsened(base[p], at[p], r.kind) <==> GotWorse(base[p], at[p], r.kind)
    {
      WorseInWords(base[p], at[p], r.kind);
    }
  }

  lemma {:induction false} WorseInWords(base: Outcome, at: Outcome, kind: Kind)
    ensures Worsened(base, at, kind) <==> GotWorse(base, at, kind)
  {
    WeakenedIff(base.observed, at.observed);
    hide Weakened, Strongest;
  }

  /** The list in plain counts: who got worse, which class catches a smaller share of what it
      scores, and whether the run has more structural findings. */
  lemma {:induction false} RegressionsAreCounts(items: seq<Item>, base: SizeReport, at: SizeReport, r: Regression)
    requires SameCorpus(items, base.outcomes, at.outcomes) && UniqueIds(base.outcomes) && base.batchSize != at.batchSize
    ensures r in Regressions(base, at)
       <==> r.batchSize == at.batchSize
            && match r.kind
               case StructuralKind => r.subject == "<run>" && at.structural > base.structural
               case CatchRateKind =>
                 Fell(|Of(base.outcomes, r.subject, Caught)|, |Of(base.outcomes, r.subject, Missed)|,
                      |Of(at.outcomes, r.subject, Caught)|, |Of(at.outcomes, r.subject, Missed)|)
               case _ =>
                 exists p :: 0 <= p < |items| && items[p].id == r.subject && GotWorse(base.outcomes[p], at.outcomes[p], r.kind)
  {
    RegressionsAreExact(items, base, at, r);
    RateFellIff(base.outcomes, at.outcomes, r.subject);
    if RateFell(base.outcomes, at.outcomes, r.subject) {
      ScoredIsMentioned(at.outcomes, r.subject);
    }
    SomeoneGotWorse(items, base.outcomes, at.outcomes, r);
    hide Worsened, GotWorse, Regressions, UniqueIds, SameCorpus, Classes, RateFell, Fell, Of;
  }
}
