/** The batched safety sweep: nodes of many corpus items reviewed in chunks, and the
    verdicts stitched back to the items they came from. */
module BatchSweep {

  import opened Collections
  import opened Verdicts
  import opened Division
  import Digits

  datatype Node = Node(key: string, prose: string)

  /** A judged node, or the one finding that stands for every node left without a judgment. */
  datatype Finding = Genuine(key: string, verdict: Verdict) | Collapsed(keys: seq<string>)

  /** What the reviewer returns for the call number and the chunk it is shown: for each node
      a verdict, or nothing where the answer could not be parsed or attributed. */
  type Reviewer = (nat, seq<Node>) -> seq<Option<Verdict>>

  ghost predicate Answers(review: Reviewer) {
    forall call: nat, chunk: seq<Node> :: |review(call, chunk)| == |chunk|
  }

  /** The verdict on a node depends on its prose only, not on its company or its key. */
  ghost predicate Local(review: Reviewer, judge: string -> Option<Verdict>) {
    Answers(review) && forall call: nat, chunk: seq<Node>, i :: 0 <= i < |chunk| ==>
          review(call, chunk)[i] == judge(chunk[i].prose)
  }

  // ----- chunking -----

  /** Consecutive chunks of at most `size` nodes. */
  function Chunks(nodes: seq<Node>, size: nat): (chunks: seq<seq<Node>>)
    requires size > 0
    decreases |nodes|
  {
    if |nodes| == 0 then []
    else if |nodes| <= size then [nodes]
    else [nodes[..size]] + Chunks(nodes[size..], size)
  }

  function Lengths(chunks: seq<seq<Node>>): (sizes: seq<nat>)
    ensures |sizes| == |chunks| && forall i :: 0 <= i < |chunks| ==> sizes[i] == |chunks[i]|
  {
    seq(|chunks|, i requires 0 <= i < |chunks| => |chunks[i]|)
  }

  /** Chunking loses, repeats and reorders nothing, and no chunk is empty or too long. */
  lemma {:induction false} ChunksPartition(nodes: seq<Node>, size: nat)
    requires size > 0
    ensures Flat(Chunks(nodes, size)) == nodes
    ensures forall i :: 0 <= i < |Chunks(nodes, size)| ==> 0 < |Chunks(nodes, size)[i]| <= size
    decreases |nodes|
  {
    if |nodes| > size {
      ChunksPartition(nodes[size..], size);
      FlatFirst(nodes[..size], Chunks(nodes[size..], size));
    }
  }

  /** The call sizes the sweep reports having made. */
  function ChunkSizes(count: int, batchSize: int): seq<nat> {
    if count <= 0 || batchSize <= 0 then []
    else
      var full, remainder := count / batchSize, count % batchSize;
      seq(full, _ => batchSize) + if remainder > 0 then [remainder] else []
  }

  lemma DivStep(count: nat, size: nat)
    requires size > 0 && count >= size
    ensures count / size == (count - size) / size + 1 && count % size == (count - size) % size
  {
    var q, r := (count - size) / size, (count - size) % size;
    assert count - size == q * size + r;
    assert (q + 1) * size == q * size + size;
    QuotientIs(count, size, q + 1, r);
  }

  lemma DivSmall(count: nat, size: nat)
    requires count < size
    ensures count / size == 0 && count % size == count
  {
  }

  function Calls(batchSize: int): (size: nat)
    ensures size > 0
  {
    if batchSize < 1 then 1 else batchSize
  }

  lemma {:induction false} PositiveSizesAreReal(nodes: seq<Node>, size: nat)
    requires size > 0
    ensures ChunkSizes(|nodes|, size) == Lengths(Chunks(nodes, size))
    decreases |nodes|
  {
    var count := |nodes|;
    if count > size {
      PositiveSizesAreReal(nodes[size..], size);
      DivStep(count, size);
      var full := (count - size) / size;
      assert seq(full + 1, _ => size) == [size] + seq(full, _ => size);
    } else if count == size {
      DivStep(count, size);
      DivSmall(0, size);
      assert seq(1, _ => size) == [size];
    } else if count > 0 {
      DivSmall(count, size);
    }
  }

  /** The reported call sizes are those of the chunks the stage really makes exactly when
      the batch size is positive or there is nothing to review: any size below one is
      reviewed one node at a time but reported as no call at all. */
  lemma {:induction false} ReportedSizesAreRealIff(nodes: seq<Node>, batchSize: int)
    ensures ChunkSizes(|nodes|, batchSize) == Lengths(Chunks(nodes, Calls(batchSize))) <==> batchSize > 0 || nodes == []
  {
    if batchSize > 0 {
      PositiveSizesAreReal(nodes, batchSize);
    } else {
      assert |Lengths(Chunks(nodes, 1))| == |Chunks(nodes, 1)|;
    }
  }

  // ----- the safety stage -----

  function GenuineOf(nodes: seq<Node>, answers: seq<Option<Verdict>>): seq<Finding>
    requires |nodes| == |answers|
  {
    if nodes == [] then []
    else
      var k := |nodes| - 1;
      GenuineOf(nodes[..k], answers[..k]) + if answers[k].Some? then [Genuine(nodes[k].key, answers[k].value)] else []
  }

  function GapsOf(nodes: seq<Node>, answers: seq<Option<Verdict>>): seq<string>
    requires |nodes| == |answers|
  {
    if nodes == [] then []
    else
      var k := |nodes| - 1;
      GapsOf(nodes[..k], answers[..k]) + if answers[k].None? then [nodes[k].key] else []
  }

  lemma {:induction false} OfStep(nodes: seq<Node>, answers: seq<Option<Verdict>>, k: nat)
    requires k < |nodes| == |answers|
    ensures GenuineOf(nodes[..k + 1], answers[..k + 1])
         == GenuineOf(nodes[..k], answers[..k]) + if answers[k].Some? then [Genuine(nodes[k].key, answers[k].value)] else []
    ensures GapsOf(nodes[..k + 1], answers[..k + 1])
         == GapsOf(nodes[..k], answers[..k]) + if answers[k].None? then [nodes[k].key] else []
  {
    assert nodes[..k + 1][..k] == nodes[..k] && answers[..k + 1][..k] == answers[..k];
  }

  lemma {:induction false} OfMore(nodes: seq<Node>, answers: seq<Option<Verdict>>, n: Node, answer: Option<Verdict>)
    requires |nodes| == |answers|
    ensures GenuineOf(nodes + [n], answers + [answer])
         == if answer.Some? then GenuineOf(nodes, answers) + [Genuine(n.key, answer.value)] else GenuineOf(nodes, answers)
    ensures GapsOf(nodes + [n], answers + [answer])
         == if answer.None? then GapsOf(nodes, answers) + [n.key] else GapsOf(nodes, answers)
  {
    assert (nodes + [n])[..|nodes|] == nodes && (answers + [answer])[..|nodes|] == answers;
  }

  lemma {:induction false} Assoc<T>(x: seq<T>, y: seq<T>, z: seq<T>)
    ensures (x + y) + z == x + (y + z)
  {
  }

  lemma {:induction false} OfConcat(a: seq<Node>, x: seq<Option<Verdict>>, b: seq<Node>, y: seq<Option<Verdict>>)
    requires |a| == |x| && |b| == |y|
    ensures GenuineOf(a + b, x + y) == GenuineOf(a, x) + GenuineOf(b, y)
    ensures GapsOf(a + b, x + y) == GapsOf(a, x) + GapsOf(b, y)
  {
    if b == [] {
      assert a + b == a && x + y == x;
    } else {
      hide GenuineOf, GapsOf;
      var k, n, answer := |b| - 1, b[|b| - 1], y[|b| - 1];
      OfConcat(a, x, b[..k], y[..k]);
      assert b == b[..k] + [n] && y == y[..k] + [answer];
      Assoc(a, b[..k], [n]);
      Assoc(x, y[..k], [answer]);
      OfMore(b[..k], y[..k], n, answer);
      OfMore(a + b[..k], x + y[..k], n, answer);
      if answer.Some? {
        Assoc(GenuineOf(a, x), GenuineOf(b[..k], y[..k]), [Genuine(n.key, answer.value)]);
      } else {
        Assoc(GapsOf(a, x), GapsOf(b[..k], y[..k]), [n.key]);
      }
    }
  }

  /** The stage's report: the judged nodes in order, then one finding for all the others. */
  function Report(nodes: seq<Node>, answers: seq<Option<Verdict>>): seq<Finding>
    requires |nodes| == |answers|
  {
    var gaps := GapsOf(nodes, answers);
    GenuineOf(nodes, answers) + if gaps == [] then [] else [Collapsed(gaps)]
  }

  /** The answers gathered over the first `k` chunks. */
  function Gathered(chunks: seq<seq<Node>>, review: Reviewer, k: nat): seq<Option<Verdict>>
    requires k <= |chunks|
  {
    if k == 0 then [] else Gathered(chunks, review, k - 1) + review(k - 1, chunks[k - 1])
  }

  function Judged(nodes: seq<Node>, judge: string -> Option<Verdict>): (answers: seq<Option<Verdict>>)
    ensures |answers| == |nodes| && forall i :: 0 <= i < |nodes| ==> answers[i] == judge(nodes[i].prose)
  {
    seq(|nodes|, i requires 0 <= i < |nodes| => judge(nodes[i].prose))
  }

  lemma {:induction false} FlatStep(chunks: seq<seq<Node>>, k: nat)
    requires k < |chunks|
    ensures Flat(chunks[..k + 1]) == Flat(chunks[..k]) + chunks[k]
  {
    assert chunks[..k + 1][..k] == chunks[..k];
  }

  lemma {:induction false} GatheredLength(chunks: seq<seq<Node>>, review: Reviewer, k: nat)
    requires k <= |chunks| && Answers(review)
    ensures |Gathered(chunks, review, k)| == |Flat(chunks[..k])|
  {
    if k > 0 {
      GatheredLength(chunks, review, k - 1);
      FlatStep(chunks, k - 1);
    }
  }

  lemma {:induction false} GatheredIsJudged(chunks: seq<seq<Node>>, review: Reviewer, judge: string -> Option<Verdict>, k: nat)
    requires k <= |chunks| && Local(review, judge)
    ensures Gathered(chunks, review, k) == Judged(Flat(chunks[..k]), judge)
  {
    if k > 0 {
      GatheredIsJudged(chunks, review, judge, k - 1);
      FlatStep(chunks, k - 1);
      assert review(k - 1, chunks[k - 1]) == Judged(chunks[k - 1], judge);
    }
  }

  /** A node-local reviewer's report does not depend on the batch size. */
  lemma {:induction false} ChunkingIsInvisible(nodes: seq<Node>, size: nat, review: Reviewer, judge: string -> Option<Verdict>)
    requires size > 0 && Local(review, judge)
    ensures Gathered(Chunks(nodes, size), review, |Chunks(nodes, size)|) == Judged(nodes, judge)
  {
    hide Local, Gathered, Flat, Chunks;
    var chunks := Chunks(nodes, size);
    ChunksPartition(nodes, size);
    GatheredIsJudged(chunks, review, judge, |chunks|);
    assert chunks[..|chunks|] == chunks;
  }

  /** One chunk's contribution: a finding for each judged node, a gap for each other one. */
  method ReviewChunk(chunk: seq<Node>, answers: seq<Option<Verdict>>) returns (findings: seq<Finding>, gaps: seq<string>)
    requires |chunk| == |answers|
    ensures findings == GenuineOf(chunk, answers) && gaps == GapsOf(chunk, answers)
  {
    hide GenuineOf, GapsOf;
    findings, gaps := [], [];
    NothingOf();
    for k := 0 to |chunk|
      invariant findings == GenuineOf(chunk[..k], answers[..k]) && gaps == GapsOf(chunk[..k], answers[..k])
    {
      OfStep(chunk, answers, k);
      match answers[k]
      case None => gaps := gaps + [chunk[k].key];
      case Some(verdict) => findings := findings + [Genuine(chunk[k].key, verdict)];
    }
    assert chunk[..|chunk|] == chunk && answers[..|chunk|] == answers;
  }

  lemma NothingOf()
    ensures GenuineOf([], []) == [] && GapsOf([], []) == []
  {
  }

  ghost predicate Leaks(nodes: seq<Node>, leaks: string -> bool) {
    exists n: Node :: n in nodes && leaks(n.prose)
  }

  /** The stage: chunk by chunk, stopped by the privacy guard before a leaking chunk leaves. */
  method SafetyStage(nodes: seq<Node>, batchSize: int, review: Reviewer, leaks: string -> bool) returns (r: Option<seq<Finding>>)
    requires Answers(review)
    ensures r.None? <==> Leaks(nodes, leaks)
    ensures r.Some? ==>
              var chunks := Chunks(nodes, if batchSize < 1 then 1 else batchSize);
              && |nodes| == |Gathered(chunks, review, |chunks|)|
              && r.value == Report(nodes, Gathered(chunks, review, |chunks|))
  {
    hide GenuineOf, GapsOf, Chunks, Flat, Gathered;
    var chunks := Chunks(nodes, Calls(batchSize));
    ChunksPartition(nodes, Calls(batchSize));
    var findings, gaps := [], [];
    NothingOf();
    NothingGathered(chunks, review);
    for k := 0 to |chunks|
      invariant |Flat(chunks[..k])| == |Gathered(chunks, review, k)|
      invariant findings == GenuineOf(Flat(chunks[..k]), Gathered(chunks, review, k))
      invariant gaps == GapsOf(Flat(chunks[..k]), Gathered(chunks, review, k))
      invariant !Leaks(Flat(chunks[..k]), leaks)
    {
      FlatStep(chunks, k);
      GatheredStep(chunks, review, k);
      if exists n: Node :: n in chunks[k] && leaks(n.prose) {
        LeakSpreads(chunks, k, leaks);
        assert chunks[..|chunks|] == chunks;
        return None;
      }
      var answers := review(k, chunks[k]);
      var more, moreGaps := ReviewChunk(chunks[k], answers);
      OfConcat(Flat(chunks[..k]), Gathered(chunks, review, k), chunks[k], answers);
      findings, gaps := findings + more, gaps + moreGaps;
    }
    assert chunks[..|chunks|] == chunks;
    r := Some(findings + if gaps == [] then [] else [Collapsed(gaps)]);
  }

  lemma {:induction false} NothingGathered(chunks: seq<seq<Node>>, review: Reviewer)
    ensures Gathered(chunks, review, 0) == [] && Flat(chunks[..0]) == []
  {
  }

  lemma {:induction false} GatheredStep(chunks: seq<seq<Node>>, review: Reviewer, k: nat)
    requires k < |chunks|
    ensures Gathered(chunks, review, k + 1) == Gathered(chunks, review, k) + review(k, chunks[k])
  {
  }

  lemma {:induction false} LeakSpreads(chunks: seq<seq<Node>>, k: nat, leaks: string -> bool)
    requires k < |chunks| && Leaks(chunks[k], leaks)
    ensures Leaks(Flat(chunks), leaks)
  {
    var m := |chunks| - 1;
    if k < m {
      LeakSpreads(chunks[..m], k, leaks);
    }
    var n: Node :| n in (if k == m then chunks[m] else Flat(chunks[..m])) && leaks(n.prose);
    assert n in Flat(chunks);
  }

  // ----- keys -----

  function NodeKey(item: nat, node: nat): string {
    "i" + Digits.Decimal(item) + "n" + Digits.Decimal(node)
  }

  /** The key an item's verdicts are recorded under: its id, or its place when it has none. */
  function ItemKey(item: Item, band: string, index: nat): string {
    if item.id != "" then item.id else "<band-" + band + "-item-" + Digits.Decimal(index) + ">"
  }

  lemma {:induction false} SameNumeral(a: string, b: string, x: string, y: string)
    requires Digits.AllDigits(a) && Digits.AllDigits(b) && a + "n" + x == b + "n" + y
    ensures a == b && x == y
  {
    var s := a + "n" + x;
    assert s[|a|] == 'n' && s[|b|] == 'n';
    assert s[..|a|] == a && s[..|b|] == b && s[|a| + 1..] == x && s[|b| + 1..] == y;
  }

  /** Node keys of different places differ, so nothing is attributed to a wrong item. */
  lemma NodeKeysDistinct(i: nat, j: nat, i': nat, j': nat)
    requires NodeKey(i, j) == NodeKey(i', j')
    ensures i == i' && j == j'
  {
    var a, b, x, y := Digits.Decimal(i), Digits.Decimal(i'), Digits.Decimal(j), Digits.Decimal(j');
    assert NodeKey(i, j)[1..] == a + "n" + x && NodeKey(i', j')[1..] == b + "n" + y;
    SameNumeral(a, b, x, y);
    Digits.ValueOfDecimal(i);
    Digits.ValueOfDecimal(i');
    Digits.ValueOfDecimal(j);
    Digits.ValueOfDecimal(j');
  }

  /** One item's nodes under their keys. */
  function Keyed(item: nat, proses: seq<string>): (nodes: seq<Node>)
    ensures |nodes| == |proses|
    ensures forall j :: 0 <= j < |nodes| ==> nodes[j] == Node(NodeKey(item, j), proses[j])
  {
    seq(|proses|, j requires 0 <= j < |proses| => Node(NodeKey(item, j), proses[j]))
  }

  function AllNodes(items: seq<Item>, k: nat): seq<Node>
    requires k <= |items|
  {
    if k == 0 then [] else AllNodes(items, k - 1) + Keyed(k - 1, items[k - 1].nodes)
  }

  /** Every key belongs to its item; no key is claimed for another. */
  ghost predicate Owned(items: seq<Item>, band: string, owner: map<string, string>, k: nat)
    requires k <= |items|
  {
    && (forall i, j :: 0 <= i < k && 0 <= j < |items[i].nodes| ==>
          NodeKey(i, j) in owner && owner[NodeKey(i, j)] == ItemKey(items[i], band, i))
    && forall key :: key in owner ==> exists i :: 0 <= i < k && owner[key] == ItemKey(items[i], band, i)
  }

  ghost predicate OwnedPart(items: seq<Item>, band: string, owner: map<string, string>, k: nat, n: nat)
    requires k < |items| && n <= |items[k].nodes|
  {
    && (forall i, j :: 0 <= i < k && 0 <= j < |items[i].nodes| ==>
          NodeKey(i, j) in owner && owner[NodeKey(i, j)] == ItemKey(items[i], band, i))
    && (forall j :: 0 <= j < n ==> NodeKey(k, j) in owner && owner[NodeKey(k, j)] == ItemKey(items[k], band, k))
    && forall key :: key in owner ==> exists i :: 0 <= i <= k && owner[key] == ItemKey(items[i], band, i)
  }

  lemma {:induction false} OwnStep(items: seq<Item>, band: string, owner: map<string, string>, k: nat, n: nat)
    requires k < |items| && n < |items[k].nodes| && OwnedPart(items, band, owner, k, n)
    ensures OwnedPart(items, band, owner[NodeKey(k, n) := ItemKey(items[k], band, k)], k, n + 1)
  {
    hide NodeKey, ItemKey;
    forall i, j | 0 <= i < k && 0 <= j < |items[i].nodes|
      ensures NodeKey(i, j) != NodeKey(k, n)
    {
      if NodeKey(i, j) == NodeKey(k, n) {
        NodeKeysDistinct(i, j, k, n);
      }
    }
  }

  /** Lays out a band's nodes under fresh keys and opens an empty record for every item. */
  method KeyNodes(band: string, items: seq<Item>)
    returns (nodes: seq<Node>, owner: map<string, string>, byItem: map<string, seq<Verdict>>)
    ensures nodes == AllNodes(items, |items|) && Owned(items, band, owner, |items|)
    ensures forall itemKey :: itemKey in byItem <==> exists i :: 0 <= i < |items| && itemKey == ItemKey(items[i], band, i)
    ensures forall itemKey :: itemKey in byItem ==> byItem[itemKey] == []
  {
    hide NodeKey, ItemKey;
    nodes, owner, byItem := [], map[], map[];
    for k := 0 to |items|
      invariant nodes == AllNodes(items, k) && Owned(items, band, owner, k)
      invariant forall itemKey :: itemKey in byItem <==> exists i :: 0 <= i < k && itemKey == ItemKey(items[i], band, i)
      invariant forall itemKey :: itemKey in byItem ==> byItem[itemKey] == []
    {
      byItem := byItem[ItemKey(items[k], band, k) := []];
      nodes, owner := KeyItem(band, items, k, nodes, owner);
    }
  }

  method KeyItem(band: string, items: seq<Item>, k: nat, before: seq<Node>, owned: map<string, string>)
    returns (nodes: seq<Node>, owner: map<string, string>)
    requires k < |items| && before == AllNodes(items, k) && Owned(items, band, owned, k)
    ensures nodes == AllNodes(items, k + 1) && Owned(items, band, owner, k + 1)
  {
    hide NodeKey, ItemKey;
    nodes, owner := before, owned;
    var proses := items[k].nodes;
    assert OwnedPart(items, band, owner, k, 0);
    for n := 0 to |proses|
      invariant nodes == before + Keyed(k, proses)[..n]
      invariant OwnedPart(items, band, owner, k, n)
    {
      OwnStep(items, band, owner, k, n);
      owner := owner[NodeKey(k, n) := ItemKey(items[k], band, k)];
      nodes := nodes + [Node(NodeKey(k, n), proses[n])];
    }
    assert Keyed(k, proses)[..|proses|] == Keyed(k, proses);
  }

  // ----- stitching -----

  /** One flag for each of the keys that belongs to item `itemKey`. */
  function Flags(keys: seq<string>, owner: map<string, string>, itemKey: string): seq<Verdict> {
    if keys == [] then []
    else
      var last := keys[|keys| - 1];
      Flags(keys[..|keys| - 1], owner, itemKey) + if last in owner && owner[last] == itemKey then [Flag] else []
  }

  function Contribution(f: Finding, owner: map<string, string>, itemKey: string): seq<Verdict> {
    match f
    case Genuine(key, verdict) => if key in owner && owner[key] == itemKey then [verdict] else []
    case Collapsed(keys) => Flags(keys, owner, itemKey)
  }

  /** What the findings say about item `itemKey`, in the order they say it. */
  function About(findings: seq<Finding>, owner: map<string, string>, itemKey: string): seq<Verdict> {
    if findings == [] then []
    else About(findings[..|findings| - 1], owner, itemKey) + Contribution(findings[|findings| - 1], owner, itemKey)
  }

  function Structural(findings: seq<Finding>): nat {
    if findings == [] then 0
    else Structural(findings[..|findings| - 1]) + if findings[|findings| - 1].Collapsed? then 1 else 0
  }

  type Record = map<string, seq<Verdict>>

  lemma {:induction false} AboutStep(findings: seq<Finding>, f: Finding, owner: map<string, string>, itemKey: string)
    ensures About(findings + [f], owner, itemKey) == About(findings, owner, itemKey) + Contribution(f, owner, itemKey)
  {
    hide Contribution;
    assert (findings + [f])[..|findings|] == findings;
  }

  lemma {:induction false} GenuineStep(findings: seq<Finding>, key: string, v: Verdict,
      owner: map<string, string>, itemKey: string)
    ensures About(findings + [Genuine(key, v)], owner, itemKey)
         == About(findings, owner, itemKey) + if key in owner && owner[key] == itemKey then [v] else []
  {
    AboutStep(findings, Genuine(key, v), owner, itemKey);
  }

  lemma {:induction false} FlagsStep(keys: seq<string>, key: string, owner: map<string, string>, itemKey: string)
    ensures Flags(keys + [key], owner, itemKey)
         == if key in owner && owner[key] == itemKey then Flags(keys, owner, itemKey) + [Flag] else Flags(keys, owner, itemKey)
  {
    assert (keys + [key])[..|keys|] == keys;
  }

  ghost predicate Covers(byItem: Record, owner: map<string, string>) {
    forall key :: key in owner ==> owner[key] in byItem
  }

  /** `after` is `before` with each item's flags appended. */
  ghost predicate Flagged(before: Record, after: Record, keys: seq<string>, owner: map<string, string>) {
    && before.Keys == after.Keys
    && forall itemKey :: itemKey in before ==> after[itemKey] == before[itemKey] + Flags(keys, owner, itemKey)
  }

  /** `after` is `before` with what the findings say about each item appended. */
  ghost predicate Stitched(before: Record, after: Record, findings: seq<Finding>, owner: map<string, string>) {
    && before.Keys == after.Keys
    && forall itemKey :: itemKey in before ==> after[itemKey] == before[itemKey] + About(findings, owner, itemKey)
  }

  function Credit(byItem: Record, owner: map<string, string>, key: string, v: Verdict): (after: Record)
    requires Covers(byItem, owner)
    ensures after.Keys == byItem.Keys
    ensures forall itemKey :: itemKey in byItem ==>
              after[itemKey] == byItem[itemKey] + if key in owner && owner[key] == itemKey then [v] else []
  {
    if key in owner then byItem[owner[key] := byItem[owner[key]] + [v]] else byItem
  }

  lemma {:induction false} NothingStitched(before: Record, owner: map<string, string>)
    ensures Flagged(before, before, [], owner) && Stitched(before, before, [], owner)
  {
  }

  lemma {:induction false} CoversKept(before: Record, after: Record, owner: map<string, string>)
    requires before.Keys == after.Keys && Covers(before, owner)
    ensures Covers(after, owner)
  {
  }

  lemma {:induction false} FlaggedStep(before: Record, after: Record, keys: seq<string>, key: string, owner: map<string, string>)
    requires Covers(after, owner) && Flagged(before, after, keys, owner)
    ensures Flagged(before, Credit(after, owner, key, Flag), keys + [key], owner)
  {
    hide Flags, Credit;
    forall itemKey | itemKey in before
      ensures Credit(after, owner, key, Flag)[itemKey] == before[itemKey] + Flags(keys + [key], owner, itemKey)
    {
      FlagsStep(keys, key, owner, itemKey);
      Assoc(before[itemKey], Flags(keys, owner, itemKey), [Flag]);
    }
  }

  method AppendFlags(keys: seq<string>, owner: map<string, string>, before: Record) returns (after: Record)
    requires Covers(before, owner)
    ensures Flagged(before, after, keys, owner) && before.Keys == after.Keys
  {
    hide Flagged, Credit;
    after := before;
    NothingStitched(before, owner);
    for k := 0 to |keys|
      invariant Flagged(before, after, keys[..k], owner) && before.Keys == after.Keys
    {
      assert keys[..k + 1] == keys[..k] + [keys[k]];
      CoversKept(before, after, owner);
      FlaggedStep(before, after, keys[..k], keys[k], owner);
      after := Credit(after, owner, keys[k], Flag);
    }
    assert keys[..|keys|] == keys;
  }

  lemma {:induction false} StitchGenuine(before: Record, after: Record, findings: seq<Finding>, key: string,
        v: Verdict, owner: map<string, string>)
    requires Covers(after, owner) && Stitched(before, after, findings, owner)
    ensures Stitched(before, Credit(after, owner, key, v), findings + [Genuine(key, v)], owner)
  {
    hide About, Credit;
    forall itemKey | itemKey in before
      ensures Credit(after, owner, key, v)[itemKey] == before[itemKey] + About(findings + [Genuine(key, v)], owner, itemKey)
    {
      GenuineStep(findings, key, v, owner, itemKey);
      Assoc(before[itemKey], About(findings, owner, itemKey), [v]);
    }
  }

  lemma {:induction false} StitchCollapsed(before: Record, middle: Record, after: Record, findings: seq<Finding>,
        keys: seq<string>, owner: map<string, string>)
    requires Stitched(before, middle, findings, owner) && Flagged(middle, after, keys, owner)
    ensures Stitched(before, after, findings + [Collapsed(keys)], owner)
  {
    hide About, Flags;
    forall itemKey | itemKey in before
      ensures after[itemKey] == before[itemKey] + About(findings + [Collapsed(keys)], owner, itemKey)
    {
      AboutStep(findings, Collapsed(keys), owner, itemKey);
      Assoc(before[itemKey], About(findings, owner, itemKey), Flags(keys, owner, itemKey));
    }
  }

  /** Returns each finding's verdict to the item its node came from. */
  method Stitch(findings: seq<Finding>, owner: map<string, string>, before: Record) returns (after: Record, structural: nat)
    requires Covers(before, owner)
    ensures Stitched(before, after, findings, owner) && before.Keys == after.Keys && structural == Structural(findings)
  {
    hide Stitched, Credit;
    after, structural := before, 0;
    NothingStitched(before, owner);
    for k := 0 to |findings|
      invariant Stitched(before, after, findings[..k], owner) && before.Keys == after.Keys
      invariant structural == Structural(findings[..k])
    {
      assert findings[..k + 1][..k] == findings[..k] && findings[..k + 1] == findings[..k] + [findings[k]];
      CoversKept(before, after, owner);
      match findings[k]
      case Collapsed(keys) =>
        structural := structural + 1;
        var flagged := AppendFlags(keys, owner, after);
        StitchCollapsed(before, after, flagged, findings[..k], keys, owner);
        after := flagged;
      case Genuine(key, verdict) =>
        StitchGenuine(before, after, findings[..k], key, verdict, owner);
        after := Credit(after, owner, key, verdict);
    }
    assert findings[..|findings|] == findings;
  }

  // ----- what an item gets back -----

  function GenuineVerdicts(proses: seq<string>, judge: string -> Option<Verdict>): seq<Verdict> {
    if proses == [] then []
    else
      var k := |proses| - 1;
      GenuineVerdicts(proses[..k], judge) + match judge(proses[k]) case None => [] case Some(v) => [v]
  }

  function GapFlags(proses: seq<string>, judge: string -> Option<Verdict>): seq<Verdict> {
    if proses == [] then []
    else
      var k := |proses| - 1;
      GapFlags(proses[..k], judge) + if judge(proses[k]).None? then [Flag] else []
  }

  /** The item's own verdicts: one per judged node, then a flag for every other one. */
  function OwnVerdicts(proses: seq<string>, judge: string -> Option<Verdict>): seq<Verdict> {
    GenuineVerdicts(proses, judge) + GapFlags(proses, judge)
  }

  lemma {:induction false} AboutNothing(owner: map<string, string>, itemKey: string)
    ensures About([], owner, itemKey) == [] && Flags([], owner, itemKey) == []
  {
  }

  lemma {:induction false} AboutConcat(a: seq<Finding>, b: seq<Finding>, owner: map<string, string>, itemKey: string)
    ensures About(a + b, owner, itemKey) == About(a, owner, itemKey) + About(b, owner, itemKey)
  {
    hide *;
    if b == [] {
      AboutNothing(owner, itemKey);
      assert a + b == a;
    } else {
      var front, last := b[..|b| - 1], b[|b| - 1];
      AboutConcat(a, front, owner, itemKey);
      AboutStep(a + front, last, owner, itemKey);
      AboutStep(front, last, owner, itemKey);
      assert b == front + [last];
      Assoc(a, front, [last]);
      Assoc(About(a, owner, itemKey), About(front, owner, itemKey), Contribution(last, owner, itemKey));
    }
  }

  lemma {:induction false} FlagsConcat(a: seq<string>, b: seq<string>, owner: map<string, string>, itemKey: string)
    ensures Flags(a + b, owner, itemKey) == Flags(a, owner, itemKey) + Flags(b, owner, itemKey)
  {
    hide *;
    if b == [] {
      AboutNothing(owner, itemKey);
      assert a + b == a;
    } else {
      var front, last := b[..|b| - 1], b[|b| - 1];
      FlagsConcat(a, front, owner, itemKey);
      FlagsStep(a + front, last, owner, itemKey);
      FlagsStep(front, last, owner, itemKey);
      assert b == front + [last];
      Assoc(a, front, [last]);
      Assoc(Flags(a, owner, itemKey), Flags(front, owner, itemKey), [Flag]);
    }
  }

  lemma {:induction false} JudgedStep(nodes: seq<Node>, judge: string -> Option<Verdict>)
    requires nodes != []
    ensures var k, front := |nodes| - 1, nodes[..|nodes| - 1];
            var answer := judge(nodes[k].prose);
            && GenuineOf(nodes, Judged(nodes, judge))
               == (if answer.Some? then GenuineOf(front, Judged(front, judge)) + [Genuine(nodes[k].key, answer.value)]
                   else GenuineOf(front, Judged(front, judge)))
            && GapsOf(nodes, Judged(nodes, judge))
               == if answer.None? then GapsOf(front, Judged(front, judge)) + [nodes[k].key]
                  else GapsOf(front, Judged(front, judge))
  {
    assert Judged(nodes, judge)[..|nodes| - 1] == Judged(nodes[..|nodes| - 1], judge);
  }

  ghost predicate OneOwner(nodes: seq<Node>, proses: seq<string>, owner: map<string, string>, of: string) {
    && |nodes| == |proses|
    && forall j :: 0 <= j < |nodes| ==> nodes[j].prose == proses[j] && nodes[j].key in owner && owner[nodes[j].key] == of
  }

  lemma {:induction false} OwnVerdictsStep(proses: seq<string>, judge: string -> Option<Verdict>)
    requires proses != []
    ensures var k := |proses| - 1;
            && GenuineVerdicts(proses, judge)
               == (if judge(proses[k]).Some? then GenuineVerdicts(proses[..k], judge) + [judge(proses[k]).value]
                   else GenuineVerdicts(proses[..k], judge))
            && GapFlags(proses, judge)
               == if judge(proses[k]).None? then GapFlags(proses[..k], judge) + [Flag] else GapFlags(proses[..k], judge)
  {
  }

  /** A block of nodes that all belong to one item speaks about that item alone. */
  lemma {:induction false} BlockSpeaks(nodes: seq<Node>, proses: seq<string>, judge: string -> Option<Verdict>,
      owner: map<string, string>, of: string, itemKey: string)
    requires OneOwner(nodes, proses, owner, of)
    ensures About(GenuineOf(nodes, Judged(nodes, judge)), owner, itemKey)
         == if of == itemKey then GenuineVerdicts(proses, judge) else []
    ensures Flags(GapsOf(nodes, Judged(nodes, judge)), owner, itemKey) == if of == itemKey then GapFlags(proses, judge) else []
  {
    if nodes != [] {
      BlockSpeaks(nodes[..|nodes| - 1], proses[..|nodes| - 1], judge, owner, of, itemKey);
      BlockStep(nodes, proses, judge, owner, of, itemKey);
    }
  }

  lemma {:induction false} BlockStep(nodes: seq<Node>, proses: seq<string>, judge: string -> Option<Verdict>,
        owner: map<string, string>, of: string, itemKey: string)
    requires OneOwner(nodes, proses, owner, of) && nodes != []
    requires var front, fewer := nodes[..|nodes| - 1], proses[..|nodes| - 1];
             && About(GenuineOf(front, Judged(front, judge)), owner, itemKey)
                == (if of == itemKey then GenuineVerdicts(fewer, judge) else [])
             && Flags(GapsOf(front, Judged(front, judge)), owner, itemKey)
                == if of == itemKey then GapFlags(fewer, judge) else []
    ensures About(GenuineOf(nodes, Judged(nodes, judge)), owner, itemKey)
         == if of == itemKey then GenuineVerdicts(proses, judge) else []
    ensures Flags(GapsOf(nodes, Judged(nodes, judge)), owner, itemKey) == if of == itemKey then GapFlags(proses, judge) else []
  {
    var k, front := |nodes| - 1, nodes[..|nodes| - 1];
    var key, answer := nodes[k].key, judge(proses[k]);
    assert nodes[k].prose == proses[k] && key in owner && owner[key] == of;
    hide *;
    JudgedStep(nodes, judge);
    OwnVerdictsStep(proses, judge);
    if answer.Some? {
      GenuineStep(GenuineOf(front, Judged(front, judge)), key, answer.value, owner, itemKey);
    } else {
      FlagsStep(GapsOf(front, Judged(front, judge)), key, owner, itemKey);
    }
  }

  lemma {:induction false} OneFinding(f: Finding, owner: map<string, string>, itemKey: string)
    ensures About([f], owner, itemKey) == Contribution(f, owner, itemKey)
  {
    assert [f][..0] == [];
  }

  ghost predicate DistinctKeys(items: seq<Item>, band: string) {
    forall i, j :: 0 <= i < j < |items| ==> ItemKey(items[i], band, i) != ItemKey(items[j], band, j)
  }

  /** The genuine verdicts on all nodes, among the first `k` items, of items under this key. */
  function GenuineUnder(items: seq<Item>, band: string, itemKey: string, judge: string -> Option<Verdict>, k: nat): seq<Verdict>
    requires k <= |items|
  {
    if k == 0 then []
    else
      var before := GenuineUnder(items, band, itemKey, judge, k - 1);
      if ItemKey(items[k - 1], band, k - 1) == itemKey then before + GenuineVerdicts(items[k - 1].nodes, judge) else before
  }

  function FlagsUnder(items: seq<Item>, band: string, itemKey: string, judge: string -> Option<Verdict>, k: nat): seq<Verdict>
    requires k <= |items|
  {
    if k == 0 then []
    else
      var before := FlagsUnder(items, band, itemKey, judge, k - 1);
      if ItemKey(items[k - 1], band, k - 1) == itemKey then before + GapFlags(items[k - 1].nodes, judge) else before
  }

  lemma {:induction false} UnderStep(items: seq<Item>, band: string, itemKey: string, judge: string -> Option<Verdict>, k: nat)
    requires k < |items|
    ensures var his, proses := ItemKey(items[k], band, k) == itemKey, items[k].nodes;
            var genuine, flags := GenuineUnder(items, band, itemKey, judge, k), FlagsUnder(items, band, itemKey, judge, k);
            && GenuineUnder(items, band, itemKey, judge, k + 1)
               == (if his then genuine + GenuineVerdicts(proses, judge) else genuine)
            && FlagsUnder(items, band, itemKey, judge, k + 1) == if his then flags + GapFlags(proses, judge) else flags
  {
    hide GenuineVerdicts, GapFlags, ItemKey;
  }

  lemma {:induction false} NothingUnder(items: seq<Item>, band: string, itemKey: string, judge: string -> Option<Verdict>)
    ensures GenuineUnder(items, band, itemKey, judge, 0) == [] == FlagsUnder(items, band, itemKey, judge, 0)
  {
  }

  lemma {:induction false} NoVerdicts(judge: string -> Option<Verdict>)
    ensures GenuineVerdicts([], judge) == [] == GapFlags([], judge)
  {
  }

  /** What the findings say under a key is what the items under that key are owed, together. */
  lemma {:induction false} SpokenUnder(items: seq<Item>, band: string, judge: string -> Option<Verdict>,
      owner: map<string, string>, k: nat, itemKey: string)
    requires k <= |items| && Owned(items, band, owner, |items|)
    ensures var nodes := AllNodes(items, k);
            && About(GenuineOf(nodes, Judged(nodes, judge)), owner, itemKey) == GenuineUnder(items, band, itemKey, judge, k)
            && Flags(GapsOf(nodes, Judged(nodes, judge)), owner, itemKey) == FlagsUnder(items, band, itemKey, judge, k)
  {
    hide *;
    if k == 0 {
      NothingLaidOut(items, judge, owner, itemKey);
      NothingUnder(items, band, itemKey, judge);
    } else {
      SpokenUnder(items, band, judge, owner, k - 1, itemKey);
      BlockAdds(items, band, judge, owner, k - 1, itemKey);
      UnderStep(items, band, itemKey, judge, k - 1);
    }
  }

  /** No other item with a node shares the key of item `idx`. */
  ghost predicate Alone(items: seq<Item>, band: string, idx: nat)
    requires idx < |items|
  {
    forall i :: 0 <= i < |items| && i != idx && ItemKey(items[i], band, i) == ItemKey(items[idx], band, idx)
      ==> items[i].nodes == []
  }

  lemma {:induction false} OnePerNode(proses: seq<string>, judge: string -> Option<Verdict>)
    ensures |GenuineVerdicts(proses, judge)| + |GapFlags(proses, judge)| == |proses|
  {
    if proses != [] {
      OnePerNode(proses[..|proses| - 1], judge);
      OwnVerdictsStep(proses, judge);
    }
  }

  /** How many verdicts a key collects over the first `k` items: at least those of each. */
  lemma {:induction false} CollectedUnder(items: seq<Item>, band: string, judge: string -> Option<Verdict>, k: nat,
      idx: nat, other: nat)
    requires idx < |items| && other < |items| && idx != other && k <= |items|
    requires ItemKey(items[idx], band, idx) == ItemKey(items[other], band, other)
    ensures var itemKey := ItemKey(items[idx], band, idx);
            |GenuineUnder(items, band, itemKey, judge, k)| + |FlagsUnder(items, band, itemKey, judge, k)|
            >= (if idx < k then |items[idx].nodes| else 0) + if other < k then |items[other].nodes| else 0
  {
    hide GenuineVerdicts, GapFlags, ItemKey;
    if k > 0 {
      CollectedUnder(items, band, judge, k - 1, idx, other);
      OnePerNode(items[k - 1].nodes, judge);
    }
  }

  lemma {:induction false} OwnUnder(items: seq<Item>, band: string, judge: string -> Option<Verdict>, k: nat, idx: nat)
    requires idx < |items| && k <= |items| && Alone(items, band, idx)
    ensures var itemKey := ItemKey(items[idx], band, idx);
            && GenuineUnder(items, band, itemKey, judge, k)
               == (if idx < k then GenuineVerdicts(items[idx].nodes, judge) else [])
            && FlagsUnder(items, band, itemKey, judge, k) == if idx < k then GapFlags(items[idx].nodes, judge) else []
  {
    var itemKey := ItemKey(items[idx], band, idx);
    hide ItemKey, GenuineVerdicts, GapFlags, GenuineUnder, FlagsUnder;
    if k == 0 {
      NothingUnder(items, band, itemKey, judge);
    } else {
      var m := k - 1;
      OwnUnder(items, band, judge, m, idx);
      UnderStep(items, band, itemKey, judge, m);
      if m == idx {
        NothingBefore(GenuineVerdicts(items[m].nodes, judge));
        NothingBefore(GapFlags(items[m].nodes, judge));
      } else if ItemKey(items[m], band, m) == itemKey {
        assert items[m].nodes == [];
        NoVerdicts(judge);
        NothingAfter(GenuineUnder(items, band, itemKey, judge, m));
        NothingAfter(FlagsUnder(items, band, itemKey, judge, m));
      }
    }
  }

  lemma {:induction false} NothingBefore(q: seq<Verdict>)
    ensures [] + q == q
  {
  }

  lemma {:induction false} NothingAfter(q: seq<Verdict>)
    ensures q + [] == q
  {
  }

  /** An item gets back exactly its own verdicts and flags, whatever the node-local
      reviewer says, just when no other item with a node shares its key. */
  lemma {:induction false} NothingCrossesIff(items: seq<Item>, band: string, judge: string -> Option<Verdict>,
      owner: map<string, string>, idx: nat)
    requires idx < |items| && Owned(items, band, owner, |items|)
    ensures var nodes, itemKey := AllNodes(items, |items|), ItemKey(items[idx], band, idx);
            About(Report(nodes, Judged(nodes, judge)), owner, itemKey) == OwnVerdicts(items[idx].nodes, judge)
            <==> Alone(items, band, idx)
  {
    var nodes, itemKey := AllNodes(items, |items|), ItemKey(items[idx], band, idx);
    ReportSpeaks(nodes, judge, owner, itemKey);
    SpokenUnder(items, band, judge, owner, |items|, itemKey);
    OnePerNode(items[idx].nodes, judge);
    hide About, Report, AllNodes, Judged, GenuineUnder, FlagsUnder, GenuineVerdicts, GapFlags, Owned, ItemKey;
    if Alone(items, band, idx) {
      OwnUnder(items, band, judge, |items|, idx);
    } else {
      var i :| 0 <= i < |items| && i != idx && ItemKey(items[i], band, i) == itemKey && items[i].nodes != [];
      CollectedUnder(items, band, judge, |items|, idx, i);
    }
  }

  lemma {:induction false} NothingLaidOut(items: seq<Item>, judge: string -> Option<Verdict>, owner: map<string,
        string>, itemKey: string)
    ensures var nodes := AllNodes(items, 0);
            && About(GenuineOf(nodes, Judged(nodes, judge)), owner, itemKey) == []
            && Flags(GapsOf(nodes, Judged(nodes, judge)), owner, itemKey) == []
  {
  }

  lemma {:induction false} BlockAdds(items: seq<Item>, band: string, judge: string -> Option<Verdict>,
        owner: map<string, string>, k: nat, itemKey: string)
    requires k < |items| && Owned(items, band, owner, |items|)
    ensures var before, nodes, his := AllNodes(items, k), AllNodes(items, k + 1), ItemKey(items[k], band, k) == itemKey;
            && About(GenuineOf(nodes, Judged(nodes, judge)), owner, itemKey)
               == (if his then About(GenuineOf(before, Judged(before, judge)), owner, itemKey)
                     + GenuineVerdicts(items[k].nodes, judge)
                   else About(GenuineOf(before, Judged(before, judge)), owner, itemKey))
            && Flags(GapsOf(nodes, Judged(nodes, judge)), owner, itemKey)
               == if his then Flags(GapsOf(before, Judged(before, judge)), owner, itemKey)
                    + GapFlags(items[k].nodes, judge)
                  else Flags(GapsOf(before, Judged(before, judge)), owner, itemKey)
  {
    hide About, Flags, GenuineOf, GapsOf, GenuineVerdicts, GapFlags, ItemKey, NodeKey;
    var before, block := AllNodes(items, k), Keyed(k, items[k].nodes);
    assert Judged(before + block, judge) == Judged(before, judge) + Judged(block, judge);
    OfConcat(before, Judged(before, judge), block, Judged(block, judge));
    AboutConcat(GenuineOf(before, Judged(before, judge)), GenuineOf(block, Judged(block, judge)), owner, itemKey);
    FlagsConcat(GapsOf(before, Judged(before, judge)), GapsOf(block, Judged(block, judge)), owner, itemKey);
    BlockSpeaks(block, items[k].nodes, judge, owner, ItemKey(items[k], band, k), itemKey);
  }

  lemma {:induction false} ReportSpeaks(nodes: seq<Node>, judge: string -> Option<Verdict>,
      owner: map<string, string>, itemKey: string)
    ensures About(Report(nodes, Judged(nodes, judge)), owner, itemKey)
         == About(GenuineOf(nodes, Judged(nodes, judge)), owner, itemKey)
            + Flags(GapsOf(nodes, Judged(nodes, judge)), owner, itemKey)
  {
    var genuine, gaps := GenuineOf(nodes, Judged(nodes, judge)), GapsOf(nodes, Judged(nodes, judge));
    hide GenuineOf, GapsOf;
    if gaps == [] {
      assert genuine + [] == genuine;
    } else {
      AboutConcat(genuine, [Collapsed(gaps)], owner, itemKey);
      OneFinding(Collapsed(gaps), owner, itemKey);
    }
  }

  // ----- one band -----

  datatype BandProbe = BandProbe(byItem: Record, structural: nat)

  lemma {:induction false} GenuineNotStructural(nodes: seq<Node>, answers: seq<Option<Verdict>>)
    requires |nodes| == |answers|
    ensures Structural(GenuineOf(nodes, answers)) == 0
  {
    if nodes != [] {
      var k := |nodes| - 1;
      GenuineNotStructural(nodes[..k], answers[..k]);
      if answers[k].Some? {
        StructuralStep(GenuineOf(nodes[..k], answers[..k]), Genuine(nodes[k].key, answers[k].value));
      } else {
        assert GenuineOf(nodes, answers) == GenuineOf(nodes[..k], answers[..k]);
      }
    }
  }

  lemma {:induction false} StructuralStep(findings: seq<Finding>, f: Finding)
    ensures Structural(findings + [f]) == Structural(findings) + if f.Collapsed? then 1 else 0
  {
    assert (findings + [f])[..|findings|] == findings;
  }

  /** However many nodes go unjudged, a report holds at most one structural finding. */
  lemma {:induction false} ReportIsCollapsed(nodes: seq<Node>, answers: seq<Option<Verdict>>)
    requires |nodes| == |answers|
    ensures Structural(Report(nodes, answers)) == if GapsOf(nodes, answers) == [] then 0 else 1
  {
    GenuineNotStructural(nodes, answers);
    var genuine, gaps := GenuineOf(nodes, answers), GapsOf(nodes, answers);
    hide GenuineOf, GapsOf, Structural;
    if gaps == [] {
      assert genuine + [] == genuine;
    } else {
      StructuralStep(genuine, Collapsed(gaps));
    }
  }

  /** The keys a band's records are kept under. */
  ghost predicate KeyedBy(byItem: Record, items: seq<Item>, band: string) {
    forall itemKey :: itemKey in byItem <==> exists i :: 0 <= i < |items| && itemKey == ItemKey(items[i], band, i)
  }

  /** Every item's record holds its own verdicts. */
  ghost predicate OwnRecords(byItem: Record, items: seq<Item>, band: string, judge: string -> Option<Verdict>) {
    forall i :: 0 <= i < |items| ==>
      ItemKey(items[i], band, i) in byItem && byItem[ItemKey(items[i], band, i)] == OwnVerdicts(items[i].nodes, judge)
  }

  ghost function BandStructural(items: seq<Item>, judge: string -> Option<Verdict>): nat {
    var nodes := AllNodes(items, |items|);
    if GapsOf(nodes, Judged(nodes, judge)) == [] then 0 else 1
  }

  /** The records of exactly the items that stand alone under their keys are their own. */
  ghost predicate OwnWhereAlone(byItem: Record, items: seq<Item>, band: string, judge: string -> Option<Verdict>) {
    forall i :: 0 <= i < |items| ==>
      && ItemKey(items[i], band, i) in byItem
      && (byItem[ItemKey(items[i], band, i)] == OwnVerdicts(items[i].nodes, judge) <==> Alone(items, band, i))
  }

  lemma {:induction false} DistinctStandAlone(byItem: Record, items: seq<Item>, band: string, judge: string -> Option<Verdict>)
    requires DistinctKeys(items, band) && OwnWhereAlone(byItem, items, band, judge)
    ensures OwnRecords(byItem, items, band, judge)
  {
    hide ItemKey, OwnVerdicts;
    forall i | 0 <= i < |items|
      ensures ItemKey(items[i], band, i) in byItem && byItem[ItemKey(items[i], band, i)] == OwnVerdicts(items[i].nodes, judge)
    {
      assert Alone(items, band, i);
    }
  }

  lemma {:induction false} StitchedOwn(items: seq<Item>, band: string, judge: string -> Option<Verdict>,
      owner: map<string, string>, before: Record, after: Record)
    requires Owned(items, band, owner, |items|)
    requires KeyedBy(before, items, band) && forall itemKey :: itemKey in before ==> before[itemKey] == []
    requires var nodes := AllNodes(items, |items|); Stitched(before, after, Report(nodes, Judged(nodes, judge)), owner)
    ensures OwnWhereAlone(after, items, band, judge)
  {
    hide About, ItemKey, AllNodes, Report, Judged, Owned, OwnVerdicts, Alone;
    var nodes := AllNodes(items, |items|);
    forall i | 0 <= i < |items|
      ensures ItemKey(items[i], band, i) in after
      ensures after[ItemKey(items[i], band, i)] == OwnVerdicts(items[i].nodes, judge) <==> Alone(items, band, i)
    {
      assert ItemKey(items[i], band, i) in before;
      NothingCrossesIff(items, band, judge, owner, i);
    }
  }

  /** One band's items as one node list: `None` when the privacy guard stops the band. With a
      node-local reviewer exactly the items that stand alone under their keys get back their
      own verdicts, the same at every batch size. */
  method SweepBand(band: string, items: seq<Item>, batchSize: int, review: Reviewer, leaks: string -> bool,
      ghost judge: string -> Option<Verdict>)
    returns (r: Option<BandProbe>)
    requires Answers(review)
    ensures r.None? <==> Leaks(AllNodes(items, |items|), leaks)
    ensures r.Some? ==> KeyedBy(r.value.byItem, items, band) && r.value.structural <= 1
    ensures r.Some? && Local(review, judge) ==> r.value.structural == BandStructural(items, judge)
    ensures r.Some? && Local(review, judge) ==> OwnWhereAlone(r.value.byItem, items, band, judge)
    ensures r.Some? && Local(review, judge) && DistinctKeys(items, band) ==> OwnRecords(r.value.byItem, items, band, judge)
  {
    var nodes, owner, empty := KeyNodes(band, items);
    hide AllNodes, GenuineOf, GapsOf, Gathered, Judged, Chunks, Stitched, OwnRecords, DistinctKeys, Answers, Local,
        ItemKey, Report, Structural, Leaks, OwnWhereAlone;
    var findings := SafetyStage(nodes, batchSize, review, leaks);
    if findings.None? {
      return None;
    }
    OwnersCovered(band, items, owner, empty);
    var byItem, structural := Stitch(findings.value, owner, empty);
    r := Some(BandProbe(byItem, structural));
    ghost var chunks := Chunks(nodes, Calls(batchSize));
    ReportIsCollapsed(nodes, Gathered(chunks, review, |chunks|));
    if Local(review, judge) {
      ChunkingIsInvisible(nodes, Calls(batchSize), review, judge);
      StitchedOwn(items, band, judge, owner, empty, byItem);
      if DistinctKeys(items, band) {
        DistinctStandAlone(byItem, items, band, judge);
      }
    }
  }

  lemma {:induction false} OwnersCovered(band: string, items: seq<Item>, owner: map<string, string>, byItem: Record)
    requires Owned(items, band, owner, |items|) && KeyedBy(byItem, items, band)
    ensures Covers(byItem, owner)
  {
    hide ItemKey, NodeKey;
  }

  // ----- reviewing an item by itself -----

  /** The verdicts of the single-item probe, where the collapsed finding counts once. */
  function ProbeVerdicts(findings: seq<Finding>): (verdicts: seq<Verdict>)
    ensures |verdicts| == |findings|
  {
    seq(|findings|, i requires 0 <= i < |findings| => match findings[i] case Genuine(_, v) => v case Collapsed(_) => Flag)
  }

  lemma {:induction false} StrongestOfSame(a: seq<Verdict>, b: seq<Verdict>)
    requires forall v :: v in a <==> v in b
    ensures Strongest(a) == Strongest(b)
  {
    assert Strongest(a) > 0 ==> exists v :: v in a && v.Rank() == Strongest(a);
    assert Strongest(b) > 0 ==> exists v :: v in b && v.Rank() == Strongest(b);
  }

  ghost predicate PairedNodes(nodes: seq<Node>, proses: seq<string>) {
    |nodes| == |proses| && forall j :: 0 <= j < |nodes| ==> nodes[j].prose == proses[j]
  }

  lemma {:induction false} ProbeMembers(nodes: seq<Node>, proses: seq<string>, judge: string -> Option<Verdict>)
    requires PairedNodes(nodes, proses)
    ensures ProbeVerdicts(GenuineOf(nodes, Judged(nodes, judge))) == GenuineVerdicts(proses, judge)
    ensures GapsOf(nodes, Judged(nodes, judge)) == [] <==> GapFlags(proses, judge) == []
    ensures forall v :: v in GapFlags(proses, judge) ==> v == Flag
  {
    if nodes != [] {
      var k := |nodes| - 1;
      ProbeMembers(nodes[..k], proses[..k], judge);
      hide GenuineOf, GapsOf, Judged, GenuineVerdicts, GapFlags;
      JudgedStep(nodes, judge);
      OwnVerdictsStep(proses, judge);
    }
  }

  /** An item reviewed by itself, under whatever keys, has the same strongest verdict and so
      the same status as what the sweep stitches back to it. */
  lemma {:induction false} SweepMatchesTheSingleProbe(item: Item, nodes: seq<Node>, judge: string -> Option<Verdict>)
    requires PairedNodes(nodes, item.nodes)
    ensures var probed := ProbeVerdicts(Report(nodes, Judged(nodes, judge)));
            && Strongest(probed) == Strongest(OwnVerdicts(item.nodes, judge))
            && Classify(item, probed, false) == Classify(item, OwnVerdicts(item.nodes, judge), false)
  {
    ProbeMembers(nodes, item.nodes, judge);
    var genuine, gaps := GenuineOf(nodes, Judged(nodes, judge)), GapsOf(nodes, Judged(nodes, judge));
    var own, flags := GenuineVerdicts(item.nodes, judge), GapFlags(item.nodes, judge);
    var probed := ProbeVerdicts(Report(nodes, Judged(nodes, judge)));
    hide GenuineOf, GapsOf, Judged, GenuineVerdicts, GapFlags, Strongest;
    if gaps == [] {
      assert Report(nodes, Judged(nodes, judge)) == genuine && probed == own && own + flags == own;
    } else {
      assert probed == own + [Flag];
      assert flags[0] in flags;
      StrongestOfSame(probed, own + flags);
    }
  }

  const CALM := Item("x", "A", true, false, false, true, Flag, true, "6-9", ["calm"])
  const VILE := Item("x", "B", true, false, false, false, Flag, true, "6-9", ["vile"])

  function JudgeProse(prose: string): Option<Verdict> {
    if prose == "vile" then Some(Block) else Some(Pass)
  }

  /** Two items of one band under one id: each is scored on the verdicts of both, so a clean
      control is reported over-blocked because of its namesake. */
  lemma SharedIdCrosses()
    ensures var items, owner := [CALM, VILE], map[NodeKey(0, 0) := "x", NodeKey(1, 0) := "x"];
            var nodes := AllNodes(items, 2);
            && Owned(items, "6-9", owner, 2) && !DistinctKeys(items, "6-9")
            && About(Report(nodes, Judged(nodes, JudgeProse)), owner, "x") == [Pass, Block]
            && Classify(CALM, [Pass, Block], false) == ControlOverBlock
            && Classify(CALM, OwnVerdicts(CALM.nodes, JudgeProse), false) == ControlOk
  {
    var items, owner := [CALM, VILE], map[NodeKey(0, 0) := "x", NodeKey(1, 0) := "x"];
    SharedOwner(items, owner);
    TwoNodes(items);
    Judgments();
    OneJudged("calm", JudgeProse);
    CalmScores();
    hide *;
    TwoJudged(Node(NodeKey(0, 0), "calm"), Node(NodeKey(1, 0), "vile"), JudgeProse, owner);
  }

  lemma Judgments()
    ensures JudgeProse("calm") == Some(Pass) && JudgeProse("vile") == Some(Block)
  {
  }

  lemma CalmScores()
    ensures CALM.nodes == ["calm"]
    ensures Classify(CALM, [Pass, Block], false) == ControlOverBlock && Classify(CALM, [Pass], false) == ControlOk
  {
    assert [Pass, Block][..1] == [Pass] && [Pass][..0] == [];
  }

  lemma {:induction false} SharedOwner(items: seq<Item>, owner: map<string, string>)
    requires items == [CALM, VILE] && owner == map[NodeKey(0, 0) := "x", NodeKey(1, 0) := "x"]
    ensures Owned(items, "6-9", owner, 2) && !DistinctKeys(items, "6-9")
    ensures NodeKey(0, 0) in owner && NodeKey(1, 0) in owner && owner[NodeKey(0, 0)] == owner[NodeKey(1, 0)] == "x"
  {
    assert ItemKey(items[0], "6-9", 0) == "x" == ItemKey(items[1], "6-9", 1);
    hide NodeKey, ItemKey;
  }

  lemma {:induction false} TwoNodes(items: seq<Item>)
    requires items == [CALM, VILE]
    ensures AllNodes(items, 2) == [Node(NodeKey(0, 0), "calm"), Node(NodeKey(1, 0), "vile")]
  {
    hide NodeKey;
    var first, second := Node(NodeKey(0, 0), "calm"), Node(NodeKey(1, 0), "vile");
    assert Keyed(0, CALM.nodes) == [first] && Keyed(1, VILE.nodes) == [second];
    assert AllNodes(items, 0) == [] && AllNodes(items, 1) == [first];
  }

  lemma {:induction false} OneJudged(prose: string, judge: string -> Option<Verdict>)
    requires judge(prose) == Some(Pass)
    ensures OwnVerdicts([prose], judge) == [Pass]
  {
    OwnVerdictsStep([prose], judge);
    assert [prose][..0] == [] && GenuineVerdicts([], judge) == [] && GapFlags([], judge) == [];
  }

  lemma {:induction false} TwoJudged(first: Node, second: Node, judge: string -> Option<Verdict>, owner: map<string, string>)
    requires judge(first.prose) == Some(Pass) && judge(second.prose) == Some(Block)
    requires first.key in owner && second.key in owner && owner[first.key] == owner[second.key] == "x"
    ensures var nodes := [first, second];
            About(Report(nodes, Judged(nodes, judge)), owner, "x") == [Pass, Block]
  {
    hide GenuineOf, GapsOf, Judged, About, Contribution, Report;
    TwoReported(first, second, judge);
    TwoSpoken(first.key, second.key, owner);
  }

  lemma {:induction false} TwoReported(first: Node, second: Node, judge: string -> Option<Verdict>)
    requires judge(first.prose) == Some(Pass) && judge(second.prose) == Some(Block)
    ensures Report([first, second], Judged([first, second], judge)) == [Genuine(first.key, Pass), Genuine(second.key, Block)]
  {
    var nodes := [first, second];
    assert nodes[..1] == [first] && [first][..0] == [];
    hide GenuineOf, GapsOf, Judged;
    JudgedStep(nodes, judge);
    JudgedStep([first], judge);
    NothingJudged(judge);
  }

  lemma {:induction false} NothingJudged(judge: string -> Option<Verdict>)
    ensures GenuineOf([], Judged([], judge)) == [] && GapsOf([], Judged([], judge)) == []
  {
  }

  lemma {:induction false} TwoSpoken(a: string, b: string, owner: map<string, string>)
    requires a in owner && b in owner && owner[a] == owner[b] == "x"
    ensures About([Genuine(a, Pass), Genuine(b, Block)], owner, "x") == [Pass, Block]
  {
    hide About;
    OneFinding(Genuine(a, Pass), owner, "x");
    GenuineStep([Genuine(a, Pass)], b, Block, owner, "x");
    assert [Genuine(a, Pass)] + [Genuine(b, Block)] == [Genuine(a, Pass), Genuine(b, Block)];
  }
}
