/** The fill rate of `scripts/check_fill_integrity.py`: words delivered against words
    commissioned, joined node by node. */
module FillIntegrity {

  import opened Collections
  import opened Text
  import opened Digits
  import opened StringOrder
  import SeriesBook

  /** A node of the skeleton: its id if it has one, and the words its directives ask for
      (nothing where the body is no text or has no directive). */
  datatype Asked = Asked(id: Option<string>, words: nat)

  /** A node of the filled story: its id if it has one, and its body if that is a text. */
  datatype Told = Told(id: Option<string>, body: Option<string>)

  // ----- counting and keying -----

  /** The words of a text: its maximal runs of characters that are not space. */
  function WordCount(s: string): nat {
    if s == "" then 0
    else
      var k := |s| - 1;
      WordCount(s[..k]) + if !IsSpace(s[k]) && (k == 0 || IsSpace(s[k - 1])) then 1 else 0
  }

  predicate Word(s: string) {
    s != "" && forall c :: c in s ==> c !in " \t\n\U{0b}\U{0c}\r\U{1c}\U{1d}\U{1e}\U{1f}"
  }

  /** The words in order, each between two of the gaps. */
  function Spaced(words: seq<string>, gaps: seq<string>): string
    requires |gaps| == |words| + 1
  {
    if words == [] then gaps[0]
    else
      var k := |words| - 1;
      Spaced(words[..k], gaps[..k + 1]) + words[k] + gaps[k + 1]
  }

  lemma {:induction false} OneMore(t: string, c: char)
    ensures WordCount(t + [c]) == WordCount(t) + if !IsSpace(c) && (t == "" || IsSpace(t[|t| - 1])) then 1 else 0
  {
    assert (t + [c])[..|t|] == t;
  }

  lemma {:induction false} GapAddsNone(s: string, gap: string)
    requires Blank(gap)
    ensures WordCount(s + gap) == WordCount(s)
  {
    hide WordCount;
    if gap == "" {
      assert s + gap == s;
    } else {
      var front, c := gap[..|gap| - 1], gap[|gap| - 1];
      assert c in gap && forall x :: x in front ==> x in gap;
      GapAddsNone(s, front);
      assert s + gap == (s + front) + [c];
      OneMore(s + front, c);
    }
  }

  lemma {:induction false} WordAddsOne(s: string, word: string)
    requires Word(word) && (s == "" || IsSpace(s[|s| - 1]))
    ensures WordCount(s + word) == WordCount(s) + 1
  {
    hide WordCount;
    var front, c := word[..|word| - 1], word[|word| - 1];
    assert c in word && forall x :: x in front ==> x in word;
    assert s + word == (s + front) + [c];
    OneMore(s + front, c);
    if front == "" {
      assert s + front == s;
    } else {
      assert front[|front| - 1] in front;
      WordAddsOne(s, front);
    }
  }

  lemma {:induction false} EndsInSpace(words: seq<string>, gaps: seq<string>)
    requires |gaps| == |words| + 1 && Blank(gaps[|words|]) && gaps[|words|] != ""
    ensures Spaced(words, gaps) != "" && IsSpace(Spaced(words, gaps)[|Spaced(words, gaps)| - 1])
  {
    var gap := gaps[|words|];
    assert gap[|gap| - 1] in gap;
  }

  /** A text of so many words, however many and whichever spaces stand between and around
      them, counts as so many words. */
  lemma {:induction false} CountsTheWords(words: seq<string>, gaps: seq<string>)
    requires |gaps| == |words| + 1
    requires forall w :: w in words ==> Word(w)
    requires forall g :: g in gaps ==> Blank(g)
    requires forall i :: 0 < i < |words| ==> gaps[i] != ""
    ensures WordCount(Spaced(words, gaps)) == |words|
  {
    hide WordCount, Word, Blank;
    if words == [] {
      GapAddsNone("", gaps[0]);
      assert "" + gaps[0] == gaps[0] && WordCount("") == 0 by {
        NoWords();
      }
    } else {
      var k := |words| - 1;
      var before := Spaced(words[..k], gaps[..k + 1]);
      CountsTheWords(words[..k], gaps[..k + 1]);
      if gaps[k] != "" {
        EndsInSpace(words[..k], gaps[..k + 1]);
      }
      WordAddsOne(before, words[k]);
      GapAddsNone(before + words[k], gaps[k + 1]);
    }
  }

  lemma NoWords()
    ensures WordCount("") == 0
  {
  }

  function Key(id: Option<string>, index: nat): string {
    match id
    case Some(text) => text
    case None => "#" + Decimal(index)
  }

  function Words(n: Told): nat {
    match n.body
    case Some(text) => WordCount(text)
    case None => 0
  }

  /** A dictionary from keys to words, which remembers the order its keys arrived in. */
  datatype Table = Table(keys: seq<string>, words: map<string, nat>) {
    ghost predicate Valid() {
      && (forall i, j :: 0 <= i < j < |keys| ==> keys[i] != keys[j])
      && forall k :: k in keys <==> k in words
    }

    function Get(key: string): nat {
      if key in words then words[key] else 0
    }
  }

  /** Duplicate keys accumulate. */
  function Accumulate(t: Table, key: string, words: nat): (after: Table)
    requires t.Valid()
    ensures after.Valid()
  {
    if key in t.words then t.(words := t.words[key := t.words[key] + words])
    else Table(t.keys + [key], t.words[key := words])
  }

  /** Only the first occurrence of a key is credited. */
  function Credit(t: Table, key: string, words: nat): (after: Table)
    requires t.Valid()
    ensures after.Valid()
  {
    if key in t.words then t else Table(t.keys + [key], t.words[key := words])
  }

  /** What the first `k` skeleton nodes commission. */
  function Commission(nodes: seq<Asked>, k: nat): (t: Table)
    requires k <= |nodes|
    ensures t.Valid()
  {
    if k == 0 then Table([], map[])
    else
      var before, n := Commission(nodes, k - 1), nodes[k - 1];
      if n.words == 0 then before else Accumulate(before, Key(n.id, k - 1), n.words)
  }

  /** What the first `k` filled nodes deliver. */
  function Deliver(nodes: seq<Told>, k: nat): (t: Table)
    requires k <= |nodes|
    ensures t.Valid()
  {
    if k == 0 then Table([], map[])
    else
      var before, n := Deliver(nodes, k - 1), nodes[k - 1];
      match n.body
      case None => before
      case Some(text) => Credit(before, Key(n.id, k - 1), WordCount(text))
  }

  method CommissionedWords(nodes: seq<Asked>) returns (t: Table)
    ensures t == Commission(nodes, |nodes|)
  {
    hide Accumulate, Key;
    t := Table([], map[]);
    for k := 0 to |nodes|
      invariant t == Commission(nodes, k)
    {
      if nodes[k].words == 0 {
        continue;
      }
      t := Accumulate(t, Key(nodes[k].id, k), nodes[k].words);
    }
  }

  method DeliveredWords(nodes: seq<Told>) returns (t: Table)
    ensures t == Deliver(nodes, |nodes|)
  {
    hide Credit, Key, WordCount;
    t := Table([], map[]);
    for k := 0 to |nodes|
      invariant t == Deliver(nodes, k)
    {
      if nodes[k].body.Some? {
        t := Credit(t, Key(nodes[k].id, k), WordCount(nodes[k].body.value));
      }
    }
  }

  // ----- the totals -----

  function Total(t: Table, keys: seq<string>): nat {
    if keys == [] then 0 else Total(t, keys[..|keys| - 1]) + t.Get(keys[|keys| - 1])
  }

  function Min(a: nat, b: nat): nat {
    if a <= b then a else b
  }

  /** Each commissioned key's credit, capped at what was commissioned. */
  function Capped(asked: Table, told: Table, keys: seq<string>): nat {
    if keys == [] then 0
    else
      var last := keys[|keys| - 1];
      Capped(asked, told, keys[..|keys| - 1]) + Min(told.Get(last), asked.Get(last))
  }

  /** The skeleton's node list as it was read: nothing if it is no list, and `None` for an
      entry that is no node object. */
  type Document = Option<seq<Option<Asked>>>

  /** An entry that is no object commissions nothing but keeps its position. */
  function Slots(document: Document): (nodes: seq<Asked>)
    ensures |nodes| == if document.Some? then |document.value| else 0
  {
    match document
    case None => []
    case Some(entries) =>
      seq(|entries|, i requires 0 <= i < |entries| => if entries[i].Some? then entries[i].value else Asked(None, 0))
  }

  predicate Scannable(document: Document) {
    document.Some? && exists i :: 0 <= i < |document.value| && document.value[i].Some?
  }

  datatype Verdict =
    | NothingToScan
    | NothingAsked
    | Measured(raw: nat, effective: nat, total: nat, passes: bool)

  /** Whether the check fails on this account. */
  predicate Fails(v: Verdict) {
    v.NothingToScan? || (v.Measured? && !v.passes)
  }

  function Judged(skeleton: Document, filled: seq<Told>, floor: real): Verdict {
    var nodes := Slots(skeleton);
    var asked, told := Commission(nodes, |nodes|), Deliver(filled, |filled|);
    if asked.keys == [] then if Scannable(skeleton) then NothingAsked else NothingToScan
    else Measured(Total(told, asked.keys), Capped(asked, told, asked.keys), Total(asked, asked.keys),
                  Passes(Capped(asked, told, asked.keys), Total(asked, asked.keys), floor))
  }

  /** The measurement and its verdict against the floor. A skeleton without a commissioned
      word is a note, one without a single node object to look at is a failure. */
  method MeasureFill(skeleton: Document, filled: seq<Told>, floor: real) returns (v: Verdict)
    ensures v == Judged(skeleton, filled, floor)
  {
    hide Commission, Deliver, Passes;
    var asked := CommissionedWords(Slots(skeleton));
    if asked.keys == [] {
      return if Scannable(skeleton) then NothingAsked else NothingToScan;
    }
    var told := DeliveredWords(filled);
    var raw, effective, total := 0, 0, 0;
    for k := 0 to |asked.keys|
      invariant raw == Total(told, asked.keys[..k])
      invariant effective == Capped(asked, told, asked.keys[..k])
      invariant total == Total(asked, asked.keys[..k])
    {
      assert asked.keys[..k + 1][..k] == asked.keys[..k];
      var key := asked.keys[k];
      raw := raw + told.Get(key);
      effective := effective + Min(told.Get(key), asked.Get(key));
      total := total + asked.Get(key);
    }
    assert asked.keys[..|asked.keys|] == asked.keys;
    v := Measured(raw, effective, total, Passes(effective, total, floor));
  }

  /** There is nothing to measure exactly when no node commissions a word, so the check fails
      without measuring exactly on skeletons in which it finds no node at all. */
  lemma {:induction false} NothingAskedIff(nodes: seq<Asked>, k: nat)
    requires k <= |nodes|
    ensures Commission(nodes, k).keys == [] <==> forall i :: 0 <= i < k ==> nodes[i].words == 0
  {
    hide Key;
    if k > 0 {
      NothingAskedIff(nodes, k - 1);
    }
  }

  /** Not below the floor; a total of nothing cannot be measured. */
  predicate Passes(effective: nat, total: nat, floor: real) {
    total > 0 && effective as real / total as real >= floor
  }

  // ----- position by position -----

  /** The commissioned words of the first `k` positions. */
  function AskedSum(nodes: seq<Asked>, k: nat): nat
    requires k <= |nodes|
  {
    if k == 0 then 0 else AskedSum(nodes, k - 1) + nodes[k - 1].words
  }

  /** The credit of the first `k` positions, each capped at its own target. */
  function CreditSum(skeleton: seq<Asked>, filled: seq<Told>, k: nat): nat
    requires k <= |skeleton| == |filled|
  {
    if k == 0 then 0 else CreditSum(skeleton, filled, k - 1) + Min(Words(filled[k - 1]), skeleton[k - 1].words)
  }

  /** What the first `k` positions fall short of their own targets. */
  function ShortfallSum(skeleton: seq<Asked>, filled: seq<Told>, k: nat): nat
    requires k <= |skeleton| == |filled|
  {
    if k == 0 then 0
    else ShortfallSum(skeleton, filled, k - 1) + (skeleton[k - 1].words - Min(Words(filled[k - 1]), skeleton[k - 1].words))
  }

  /** The same nodes in the same order, as the structural comparison has already established,
      and no key used twice. */
  ghost predicate Paired(skeleton: seq<Asked>, filled: seq<Told>) {
    && |skeleton| == |filled|
    && (forall i :: 0 <= i < |skeleton| ==> skeleton[i].id == filled[i].id)
    && forall i, j :: 0 <= i < j < |skeleton| ==> Key(skeleton[i].id, i) != Key(skeleton[j].id, j)
  }

  lemma {:induction false} TotalStep(t: Table, keys: seq<string>, key: string)
    ensures Total(t, keys + [key]) == Total(t, keys) + t.Get(key)
  {
    assert (keys + [key])[..|keys|] == keys;
  }

  /** Changing one entry changes the total by that much, once. */
  lemma {:induction false} TotalChanges(t: Table, after: Table, keys: seq<string>, key: string, words: nat)
    requires forall i, j :: 0 <= i < j < |keys| ==> keys[i] != keys[j]
    requires after.Get(key) == t.Get(key) + words && forall k :: k != key ==> after.Get(k) == t.Get(k)
    ensures Total(after, keys) == Total(t, keys) + if key in keys then words else 0
  {
    if keys != [] {
      TotalChanges(t, after, keys[..|keys| - 1], key, words);
      assert keys == keys[..|keys| - 1] + [keys[|keys| - 1]];
    }
  }

  lemma {:induction false} AccumulateAdds(t: Table, key: string, words: nat)
    requires t.Valid()
    ensures var after := Accumulate(t, key, words); Total(after, after.keys) == Total(t, t.keys) + words
  {
    var after := Accumulate(t, key, words);
    TotalChanges(t, after, t.keys, key, words);
    if key !in t.words {
      TotalStep(after, t.keys, key);
    }
  }

  /** The denominator is the flat sum over the skeleton, whatever its keys do. */
  lemma {:induction false} DenominatorIsFlat(nodes: seq<Asked>, k: nat)
    requires k <= |nodes|
    ensures Total(Commission(nodes, k), Commission(nodes, k).keys) == AskedSum(nodes, k)
  {
    hide Accumulate;
    if k > 0 {
      DenominatorIsFlat(nodes, k - 1);
      if nodes[k - 1].words > 0 {
        AccumulateAdds(Commission(nodes, k - 1), Key(nodes[k - 1].id, k - 1), nodes[k - 1].words);
      }
    }
  }

  /** The keys commissioned so far are keys of positions passed. */
  lemma {:induction false} CommissionKeys(nodes: seq<Asked>, k: nat, key: string)
    requires k <= |nodes| && key in Commission(nodes, k).words
    ensures exists i :: 0 <= i < k && Key(nodes[i].id, i) == key
  {
    hide Key;
    if key in Commission(nodes, k - 1).words {
      CommissionKeys(nodes, k - 1, key);
    }
  }

  lemma {:induction false} DeliverKeys(nodes: seq<Told>, k: nat, key: string)
    requires k <= |nodes| && key in Deliver(nodes, k).words
    ensures exists i :: 0 <= i < k && Key(nodes[i].id, i) == key
  {
    hide Key, WordCount;
    if key in Deliver(nodes, k - 1).words {
      DeliverKeys(nodes, k - 1, key);
    }
  }

  lemma {:induction false} DeliverStep(nodes: seq<Told>, k: nat, key: string)
    requires k < |nodes|
    ensures Deliver(nodes, k + 1).Get(key)
         == if key == Key(nodes[k].id, k) && key !in Deliver(nodes, k).words then Words(nodes[k]) else Deliver(nodes, k).Get(key)
  {
    hide Key, WordCount;
  }

  /** With distinct keys, a position's key fetches that position's words. */
  lemma {:induction false} DeliveredAt(nodes: seq<Told>, i: nat, k: nat)
    requires i < k <= |nodes|
    requires forall a, b :: 0 <= a < b < |nodes| ==> Key(nodes[a].id, a) != Key(nodes[b].id, b)
    ensures Deliver(nodes, k).Get(Key(nodes[i].id, i)) == Words(nodes[i])
  {
    hide Key, WordCount, Words, Deliver;
    var key := Key(nodes[i].id, i);
    DeliverStep(nodes, k - 1, key);
    if i < k - 1 {
      DeliveredAt(nodes, i, k - 1);
    } else if key in Deliver(nodes, i).words {
      DeliverKeys(nodes, i, key);
    }
  }

  lemma {:induction false} CappedStep(asked: Table, told: Table, keys: seq<string>, key: string)
    ensures Capped(asked, told, keys + [key]) == Capped(asked, told, keys) + Min(told.Get(key), asked.Get(key))
  {
    assert (keys + [key])[..|keys|] == keys;
  }

  lemma {:induction false} CappedSame(asked: Table, after: Table, told: Table, keys: seq<string>)
    requires forall k :: k in keys ==> asked.Get(k) == after.Get(k)
    ensures Capped(after, told, keys) == Capped(asked, told, keys)
  {
    if keys != [] {
      assert keys[|keys| - 1] in keys;
      CappedSame(asked, after, told, keys[..|keys| - 1]);
    }
  }

  /** A new key brings its own capped credit and leaves the others' alone. */
  lemma {:induction false} FreshKeyAdds(t: Table, key: string, words: nat, told: Table)
    requires t.Valid() && key !in t.words
    ensures var after := Accumulate(t, key, words);
            Capped(after, told, after.keys) == Capped(t, told, t.keys) + Min(told.Get(key), words)
  {
    var after := Accumulate(t, key, words);
    CappedSame(t, after, told, t.keys);
    CappedStep(after, told, t.keys, key);
  }

  lemma {:induction false} CommissionStep(nodes: seq<Asked>, k: nat)
    requires k < |nodes|
    ensures Commission(nodes, k + 1)
         == if nodes[k].words == 0 then Commission(nodes, k)
               else Accumulate(Commission(nodes, k), Key(nodes[k].id, k), nodes[k].words)
  {
    hide Accumulate, Key;
  }

  lemma {:induction false} NewKey(skeleton: seq<Asked>, filled: seq<Told>, k: nat)
    requires k < |skeleton| && Paired(skeleton, filled)
    ensures Key(skeleton[k].id, k) !in Commission(skeleton, k).words
    ensures Deliver(filled, |filled|).Get(Key(skeleton[k].id, k)) == Words(filled[k])
  {
    hide Key, Words, Deliver, Commission;
    DeliveredAt(filled, k, |filled|);
    var key := Key(skeleton[k].id, k);
    if key in Commission(skeleton, k).words {
      CommissionKeys(skeleton, k, key);
    }
  }

  lemma {:induction false} CreditStep(skeleton: seq<Asked>, filled: seq<Told>, k: nat)
    requires k < |skeleton| == |filled|
    ensures CreditSum(skeleton, filled, k + 1)
         == CreditSum(skeleton, filled, k) + if skeleton[k].words == 0 then 0 else Min(Words(filled[k]), skeleton[k].words)
  {
    hide Words;
  }

  lemma {:induction false} NothingCapped(skeleton: seq<Asked>, filled: seq<Told>, told: Table)
    requires |skeleton| == |filled|
    ensures Capped(Commission(skeleton, 0), told, Commission(skeleton, 0).keys) == 0 == CreditSum(skeleton, filled, 0)
  {
  }

  lemma {:induction false} CappedAdvance(skeleton: seq<Asked>, filled: seq<Told>, k: nat, told: Table)
    requires k < |skeleton| == |filled| && Paired(skeleton, filled) && told == Deliver(filled, |filled|)
    requires Capped(Commission(skeleton, k), told, Commission(skeleton, k).keys) == CreditSum(skeleton, filled, k)
    ensures Capped(Commission(skeleton, k + 1), told, Commission(skeleton, k + 1).keys) == CreditSum(skeleton, filled, k + 1)
  {
    hide *;
    CommissionStep(skeleton, k);
    CreditStep(skeleton, filled, k);
    NewKey(skeleton, filled, k);
    if skeleton[k].words > 0 {
      FreshKeyAdds(Commission(skeleton, k), Key(skeleton[k].id, k), skeleton[k].words, told);
    }
  }

  lemma {:induction false} CappedByPosition(skeleton: seq<Asked>, filled: seq<Told>, k: nat, told: Table)
    requires k <= |skeleton| == |filled| && Paired(skeleton, filled) && told == Deliver(filled, |filled|)
    ensures Capped(Commission(skeleton, k), told, Commission(skeleton, k).keys) == CreditSum(skeleton, filled, k)
  {
    hide *;
    if k == 0 {
      NothingCapped(skeleton, filled, told);
    } else {
      CappedByPosition(skeleton, filled, k - 1, told);
      CappedAdvance(skeleton, filled, k - 1, told);
    }
  }

  /** On documents whose node keys are unique, the joined figures are sums over positions:
      each node's delivery counts towards its own target and no further. */
  lemma {:induction false} FillIsByPosition(skeleton: seq<Asked>, filled: seq<Told>)
    requires Paired(skeleton, filled)
    ensures |skeleton| == |filled|
    ensures var asked, told := Commission(skeleton, |skeleton|), Deliver(filled, |filled|);
            && Capped(asked, told, asked.keys) == CreditSum(skeleton, filled, |skeleton|)
            && Total(asked, asked.keys) == AskedSum(skeleton, |skeleton|)
  {
    CappedByPosition(skeleton, filled, |skeleton|, Deliver(filled, |filled|));
    DenominatorIsFlat(skeleton, |skeleton|);
  }

  lemma {:induction false} CreditPlusShortfall(skeleton: seq<Asked>, filled: seq<Told>, k: nat)
    requires k <= |skeleton| == |filled|
    ensures CreditSum(skeleton, filled, k) + ShortfallSum(skeleton, filled, k) == AskedSum(skeleton, k)
  {
    if k > 0 {
      CreditPlusShortfall(skeleton, filled, k - 1);
    }
  }

  /** More words anywhere never lower the credit. */
  lemma {:induction false} CreditIsMonotone(skeleton: seq<Asked>, less: seq<Told>, more: seq<Told>, k: nat)
    requires k <= |skeleton| == |less| == |more| && forall i :: 0 <= i < k ==> Words(less[i]) <= Words(more[i])
    ensures CreditSum(skeleton, less, k) <= CreditSum(skeleton, more, k)
  {
    if k > 0 {
      CreditIsMonotone(skeleton, less, more, k - 1);
    }
  }

  lemma {:induction false} RatioFloor(effective: nat, total: nat, floor: real)
    requires total > 0
    ensures effective as real / total as real >= floor <==> effective as real >= floor * total as real
  {
    var e, t := effective as real, total as real;
    var q := e / t;
    assert q * t == e;
    if q >= floor {
      NonNegativeTimes(q - floor, t);
    } else {
      PositiveTimes(floor - q, t);
    }
  }

  lemma {:induction false} NonNegativeTimes(x: real, y: real)
    requires x >= 0.0 && y > 0.0
    ensures x * y >= 0.0
  {
  }

  lemma {:induction false} PositiveTimes(x: real, y: real)
    requires x > 0.0 && y > 0.0
    ensures x * y > 0.0
  {
  }

  /** How many words a floor lets a fill of `total` words fall short. */
  function Allowance(floor: real, total: nat): real {
    (1.0 - floor) * total as real
  }

  lemma FloorAllows(credit: nat, shortfall: nat, total: nat, floor: real)
    requires total > 0 && credit + shortfall == total
    ensures Passes(credit, total, floor) <==> shortfall as real <= Allowance(floor, total)
  {
    RatioFloor(credit, total, floor);
    var t := total as real;
    assert (1.0 - floor) * t == t - floor * t;
  }

  /** Passing the floor `f` means exactly that all the nodes together fall short of their
      targets by at most `(1 - f)` of the commission: no surplus anywhere helps. */
  lemma {:induction false} PassingBoundsTheShortfall(skeleton: seq<Asked>, filled: seq<Told>, floor: real)
    requires Paired(skeleton, filled) && AskedSum(skeleton, |skeleton|) > 0
    ensures |skeleton| == |filled|
    ensures var asked, told := Commission(skeleton, |skeleton|), Deliver(filled, |filled|);
            (Passes(Capped(asked, told, asked.keys), Total(asked, asked.keys), floor)
             <==> ShortfallSum(skeleton, filled, |skeleton|) as real <= Allowance(floor, AskedSum(skeleton, |skeleton|)))
  {
    assert |skeleton| == |filled|;
    hide *;
    FillIsByPosition(skeleton, filled);
    CreditPlusShortfall(skeleton, filled, |skeleton|);
    FloorAllows(CreditSum(skeleton, filled, |skeleton|), ShortfallSum(skeleton, filled, |skeleton|),
        AskedSum(skeleton, |skeleton|), floor);
  }

  /** A skeleton in which there is no node object to look at. */
  ghost predicate NoNodeAtAll(skeleton: Document) {
    skeleton.None? || forall entry :: entry in skeleton.value ==> entry.None?
  }

  /** Some node asks for words, and the fill is short by more than the floor allows. */
  ghost predicate FallsShort(nodes: seq<Asked>, filled: seq<Told>, floor: real)
    requires |nodes| == |filled|
  {
    && (exists i :: 0 <= i < |nodes| && nodes[i].words > 0)
    && ShortfallSum(nodes, filled, |nodes|) as real > Allowance(floor, AskedSum(nodes, |nodes|))
  }

  /** What fails a fill, in the end: a skeleton without a single node object, or a fill that
      falls short of the words its nodes ask for by more than the floor allows. */
  lemma {:induction false} FillFailsIff(skeleton: Document, filled: seq<Told>, floor: real)
    requires Paired(Slots(skeleton), filled)
    ensures |Slots(skeleton)| == |filled|
    ensures Fails(Judged(skeleton, filled, floor)) <==> NoNodeAtAll(skeleton) || FallsShort(Slots(skeleton), filled, floor)
  {
    var nodes := Slots(skeleton);
    NothingAskedIff(nodes, |nodes|);
    UnscannableIff(skeleton);
    SomeNode(skeleton);
    assert |nodes| == |filled|;
    if Commission(nodes, |nodes|).keys != [] {
      FailsWhenShort(nodes, filled, floor);
    }
    hide Paired, Passes, ShortfallSum, AskedSum, Slots, Deliver, Commission, Capped, Total, Scannable, NoNodeAtAll;
  }

  lemma {:induction false} FailsWhenShort(nodes: seq<Asked>, filled: seq<Told>, floor: real)
    requires Paired(nodes, filled) && Commission(nodes, |nodes|).keys != []
    ensures |nodes| == |filled|
    ensures var asked, told := Commission(nodes, |nodes|), Deliver(filled, |filled|);
            !Passes(Capped(asked, told, asked.keys), Total(asked, asked.keys), floor) <==> FallsShort(nodes, filled, floor)
  {
    NothingAskedIff(nodes, |nodes|);
    AsksForSome(nodes, |nodes|);
    PassingBoundsTheShortfall(nodes, filled, floor);
    hide Paired, Passes, ShortfallSum, AskedSum, Deliver, Commission, Capped, Total, Allowance;
  }

  lemma {:induction false} UnscannableIff(skeleton: Document)
    ensures Scannable(skeleton) <==> !NoNodeAtAll(skeleton)
  {
    if Scannable(skeleton) {
      var i :| 0 <= i < |skeleton.value| && skeleton.value[i].Some?;
      assert skeleton.value[i] in skeleton.value;
    }
  }

  lemma {:induction false} AsksForSome(nodes: seq<Asked>, k: nat)
    requires k <= |nodes|
    ensures AskedSum(nodes, k) > 0 <==> exists i :: 0 <= i < k && nodes[i].words > 0
  {
    if k > 0 {
      AsksForSome(nodes, k - 1);
    }
  }

  lemma {:induction false} SomeNode(skeleton: Document)
    ensures (exists i :: 0 <= i < |Slots(skeleton)| && Slots(skeleton)[i].words > 0) ==> !NoNodeAtAll(skeleton)
  {
    if i :| 0 <= i < |Slots(skeleton)| && Slots(skeleton)[i].words > 0 {
      assert skeleton.value[i] in skeleton.value;
    }
  }

  /** A lengthened fill that still matches the skeleton never turns a pass into a failure. */
  lemma {:induction false} LongerFillsStillPass(skeleton: seq<Asked>, less: seq<Told>, more: seq<Told>, floor: real)
    requires Paired(skeleton, less) && Paired(skeleton, more)
    requires forall i :: 0 <= i < |skeleton| ==> Words(less[i]) <= Words(more[i])
    requires var asked, told := Commission(skeleton, |skeleton|), Deliver(less, |less|);
             Passes(Capped(asked, told, asked.keys), Total(asked, asked.keys), floor)
    ensures var asked, told := Commission(skeleton, |skeleton|), Deliver(more, |more|);
            Passes(Capped(asked, told, asked.keys), Total(asked, asked.keys), floor)
  {
    FillIsByPosition(skeleton, less);
    FillIsByPosition(skeleton, more);
    CreditIsMonotone(skeleton, less, more, |skeleton|);
    hide Commission, Deliver, CreditSum, AskedSum, Paired, Capped, Total;
    RatioRises(CreditSum(skeleton, less, |skeleton|), CreditSum(skeleton, more, |skeleton|), AskedSum(skeleton,
        |skeleton|), floor);
  }

  lemma RatioRises(a: nat, b: nat, total: nat, floor: real)
    requires a <= b && Passes(a, total, floor)
    ensures Passes(b, total, floor)
  {
    RatioFloor(a, total, floor);
    RatioFloor(b, total, floor);
  }

  /** Whatever the documents look like, the capped figure exceeds neither the raw delivery nor
      the commission, so the rate that gates is at most the headline rate and at most one. */
  lemma {:induction false} CappedIsLeast(asked: Table, told: Table, keys: seq<string>)
    ensures Capped(asked, told, keys) <= Total(told, keys)
    ensures Capped(asked, told, keys) <= Total(asked, keys)
  {
    if keys != [] {
      CappedIsLeast(asked, told, keys[..|keys| - 1]);
    }
  }

  // ----- duplicate ids -----

  function Uses(nodes: seq<Told>, id: string): nat {
    if nodes == [] then 0
    else Uses(nodes[..|nodes| - 1], id) + if nodes[|nodes| - 1].id == Some(id) then 1 else 0
  }

  /** The ids used more than once, ascending. */
  method DuplicateIds(nodes: seq<Told>) returns (repeated: seq<string>)
    ensures Ascending(repeated) && forall id :: id in repeated <==> Uses(nodes, id) > 1
  {
    var seen: map<string, nat> := map[];
    for k := 0 to |nodes|
      invariant forall id :: id in seen <==> Uses(nodes[..k], id) > 0
      invariant forall id :: id in seen ==> seen[id] == Uses(nodes[..k], id)
    {
      assert nodes[..k + 1][..k] == nodes[..k];
      if nodes[k].id.Some? {
        var id := nodes[k].id.value;
        seen := seen[id := (if id in seen then seen[id] else 0) + 1];
      }
    }
    assert nodes[..|nodes|] == nodes;
    var found := set id | id in seen && seen[id] > 1;
    repeated := Sorted(found);
  }

  lemma {:induction false} UsedTwice(nodes: seq<Told>, i: nat, j: nat)
    requires i < j < |nodes| && nodes[i].id.Some? && nodes[i].id == nodes[j].id
    ensures Uses(nodes, nodes[i].id.value) > 1
  {
    var k := |nodes| - 1;
    if j < k {
      UsedTwice(nodes[..k], i, j);
    } else {
      UsedOnce(nodes[..k], i);
    }
  }

  lemma {:induction false} UsedOnce(nodes: seq<Told>, i: nat)
    requires i < |nodes| && nodes[i].id.Some?
    ensures Uses(nodes, nodes[i].id.value) > 0
  {
    if i < |nodes| - 1 {
      UsedOnce(nodes[..|nodes| - 1], i);
    }
  }

  lemma {:induction false} UsedAt(nodes: seq<Told>, id: string) returns (i: nat)
    requires Uses(nodes, id) > 0
    ensures i < |nodes| && nodes[i].id == Some(id)
  {
    if nodes[|nodes| - 1].id == Some(id) {
      i := |nodes| - 1;
    } else {
      i := UsedAt(nodes[..|nodes| - 1], id);
    }
  }

  /** An explicit id that spells an id-less node's positional key. */
  ghost predicate Impostor(nodes: seq<Told>) {
    exists i, j :: 0 <= i < |nodes| && 0 <= j < |nodes| && nodes[i].id.Some? && nodes[j].id.None?
          && nodes[i].id.value == "#" + Decimal(j)
  }

  ghost predicate NothingRepeats(nodes: seq<Told>) {
    forall id :: Uses(nodes, id) <= 1
  }

  ghost predicate UniqueKeys(nodes: seq<Told>) {
    forall i, j :: 0 <= i < j < |nodes| ==> Key(nodes[i].id, i) != Key(nodes[j].id, j)
  }

  lemma {:induction false} UniqueKeysAreClean(nodes: seq<Told>)
    requires UniqueKeys(nodes)
    ensures NothingRepeats(nodes) && !Impostor(nodes)
  {
    hide Decimal, Uses;
    forall id
      ensures Uses(nodes, id) <= 1
    {
      if Uses(nodes, id) > 1 {
        var i, j := TwoUses(nodes, id);
      }
    }
  }

  lemma {:induction false} CleanKeysAreUnique(nodes: seq<Told>, i: nat, j: nat)
    requires NothingRepeats(nodes) && !Impostor(nodes) && i < j < |nodes|
    ensures Key(nodes[i].id, i) != Key(nodes[j].id, j)
  {
    hide Decimal, Uses;
    if nodes[i].id.Some? && nodes[i].id == nodes[j].id {
      UsedTwice(nodes, i, j);
    } else if nodes[i].id.None? && nodes[j].id.None? {
      PositionalKeys(i, j);
    }
  }

  /** The duplicate check makes the join safe except for one shape: keys are unique exactly
      when no id repeats and no explicit id spells a positional key. */
  lemma {:induction false} DuplicateCheckMissesImpostors(nodes: seq<Told>)
    ensures UniqueKeys(nodes) <==> NothingRepeats(nodes) && !Impostor(nodes)
  {
    hide NothingRepeats, Impostor, Key;
    if UniqueKeys(nodes) {
      UniqueKeysAreClean(nodes);
    }
    if NothingRepeats(nodes) && !Impostor(nodes) {
      forall i, j | 0 <= i < j < |nodes|
        ensures Key(nodes[i].id, i) != Key(nodes[j].id, j)
      {
        CleanKeysAreUnique(nodes, i, j);
      }
    }
  }

  lemma {:induction false} PositionalKeys(i: nat, j: nat)
    requires i != j
    ensures "#" + Decimal(i) != "#" + Decimal(j)
  {
    ValueOfDecimal(i);
    ValueOfDecimal(j);
    assert ("#" + Decimal(i))[1..] == Decimal(i) && ("#" + Decimal(j))[1..] == Decimal(j);
  }

  lemma {:induction false} TwoUses(nodes: seq<Told>, id: string) returns (i: nat, j: nat)
    requires Uses(nodes, id) > 1
    ensures i < j < |nodes| && nodes[i].id == nodes[j].id == Some(id)
  {
    var k := |nodes| - 1;
    if nodes[k].id == Some(id) {
      i := UsedAt(nodes[..k], id);
      j := k;
    } else {
      i, j := TwoUses(nodes[..k], id);
    }
  }

  // ----- compiled documents -----

  /** A compiled skeleton's nodes, with the words each body's directives ask for. */
  function AskedOf(book: SeriesBook.Book, targets: seq<nat>): (asked: seq<Asked>)
    requires |targets| == |book.nodes|
    ensures |asked| == |book.nodes| && forall i :: 0 <= i < |asked| ==> asked[i] == Asked(Some(book.nodes[i].id), targets[i])
  {
    seq(|targets|, i requires 0 <= i < |targets| => Asked(Some(book.nodes[i].id), targets[i]))
  }

  function ToldOf(book: SeriesBook.Book): (told: seq<Told>)
    ensures |told| == |book.nodes| && forall i :: 0 <= i < |told| ==>
          told[i] == Told(Some(book.nodes[i].id), Some(book.nodes[i].body))
  {
    seq(|book.nodes|, i requires 0 <= i < |book.nodes| => Told(Some(book.nodes[i].id), Some(book.nodes[i].body)))
  }

  /** A fill that passes the structural comparison is paired with its skeleton node by node,
      so with distinct node ids its fill rate is measured position by position. */
  lemma {:induction false} StructuralMatchPairs(skeleton: SeriesBook.Book, filled: SeriesBook.Book,
        targets: seq<nat>, titles: bool)
    requires SeriesBook.StripLeaves(skeleton, titles) == SeriesBook.StripLeaves(filled, titles)
    requires SeriesBook.UniqueIds(skeleton.nodes) && |targets| == |skeleton.nodes|
    ensures Paired(AskedOf(skeleton, targets), ToldOf(filled))
  {
    var a, b := SeriesBook.StripLeaves(skeleton, titles), SeriesBook.StripLeaves(filled, titles);
    forall i | 0 <= i < |skeleton.nodes|
      ensures i < |filled.nodes| && skeleton.nodes[i].id == filled.nodes[i].id
    {
      assert a.nodes[i].id == skeleton.nodes[i].id && b.nodes[i].id == filled.nodes[i].id;
    }
  }

  /** In particular the two targets compiled from one spec are paired. */
  lemma {:induction false} CompiledTargetsPair(spec: SeriesBook.Spec, prose: SeriesBook.Prose, targets: seq<nat>)
    requires SeriesBook.BuildStory(spec, Some(prose)).Ok?
    ensures var filled := SeriesBook.BuildStory(spec, Some(prose)).value;
            && SeriesBook.BuildStory(spec, None).Ok?
            && var skeleton := SeriesBook.BuildStory(spec, None).value;
               SeriesBook.UniqueIds(skeleton.nodes) && |targets| == |skeleton.nodes| ==>
                 Paired(AskedOf(skeleton, targets), ToldOf(filled))
  {
    SeriesBook.SkeletonMatchesFilled(spec, prose);
    var skeleton, filled := SeriesBook.BuildStory(spec, None).value, SeriesBook.BuildStory(spec, Some(prose)).value;
    if SeriesBook.UniqueIds(skeleton.nodes) && |targets| == |skeleton.nodes| {
      hide SeriesBook.BuildStory, SeriesBook.StripLeaves, Paired;
      StructuralMatchPairs(skeleton, filled, targets, false);
    }
  }
}
