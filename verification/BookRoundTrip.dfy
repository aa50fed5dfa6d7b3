/** Writing a finished book down as a spec and compiling it back. */
module BookRoundTrip {

  import opened Collections
  import opened Text
  import opened Digits
  import opened SeriesBook
  import Shorthand

  /** What a spec says of a node for its skeleton body. */
  datatype Card = Card(role: string, words: int, beats: string)

  // ----- writing -----

  function WriteCondition(c: Option<Shorthand.Cond>): string
    requires c.Some? ==> Shorthand.Writable(c.value)
  {
    if c.None? then "" else Shorthand.Print(c.value)
  }

  /** An empty list of effects is not the absence of effects: it is a list of blank items. */
  function WriteEffects(e: Option<seq<Shorthand.Effect>>): string {
    if e.None? then ""
    else if e.value == [] then ","
    else Shorthand.Join(Shorthand.PrintEffects(e.value), ',')
  }

  predicate WritableEffects(e: Option<seq<Shorthand.Effect>>) {
    e.Some? ==> forall x :: x in e.value ==> Shorthand.WritableEffect(x)
  }

  predicate WritableChoice(c: Choice) {
    (c.condition.Some? ==> Shorthand.Writable(c.condition.value)) && WritableEffects(c.effects)
  }

  /** Only as many fields as the choice needs. */
  function WriteRow(c: Choice): seq<string>
    requires WritableChoice(c)
  {
    if c.effects.Some? then [c.text, c.target, WriteCondition(c.condition), WriteEffects(c.effects)]
    else if c.condition.Some? then [c.text, c.target, WriteCondition(c.condition)]
    else [c.text, c.target]
  }

  function WriteRows(choices: seq<Choice>): (rows: seq<seq<string>>)
    requires forall c :: c in choices ==> WritableChoice(c)
    ensures |rows| == |choices| && forall i :: 0 <= i < |choices| ==> rows[i] == WriteRow(choices[i])
  {
    seq(|choices|, i requires 0 <= i < |choices| => WriteRow(choices[i]))
  }

  /** A field of an ending: free of the separator, and nothing to strip. */
  predicate PlainField(s: string) {
    '|' !in s && (s == "" || Shorthand.Solid(s))
  }

  predicate WritableEnding(e: Ending) {
    PlainField(e.kind) && PlainField(e.valence) && PlainField(e.title)
  }

  function WriteEnding(e: Ending): string {
    e.kind + "|" + e.valence + "|" + e.title
  }

  /** A node some spec entry can stand for: minted ids, and choices or an ending but not both. */
  predicate WritableNode(n: Node) {
    && n.id != ""
    && WritableEffects(n.onEnter)
    && (forall c :: c in n.choices ==> WritableChoice(c))
    && (forall i :: 0 <= i < |n.choices| ==> n.choices[i].id == "c_" + n.id + "_" + Decimal(i + 1))
    && n.isEnding == n.ending.Some?
    && (n.ending.Some? ==> n.choices == [] && n.ending.value.id == "end_" + n.id && WritableEnding(n.ending.value))
  }

  function WriteNode(n: Node, card: Card): Entry
    requires WritableNode(n)
  {
    Entry(n.id, card.role, card.words, card.beats, WriteRows(n.choices),
          if n.ending.Some? then WriteEnding(n.ending.value) else "", WriteEffects(n.onEnter), n.scope)
  }

  /** The body a compiled node has: the fill directive, or its own prose without the space around it. */
  predicate HasItsBody(n: Node, card: Card, prose: Option<Prose>) {
    match prose
    case None =>
      n.body == "<<FILL role=" + card.role + " words=" + Shorthand.Signed(card.words) + " beats='" + card.beats + "'>>"
    case Some(texts) => n.id in texts && n.body == Strip(texts[n.id]) != ""
  }

  function WriteNodes(nodes: seq<Node>, cards: seq<Card>): (entries: seq<Entry>)
    requires |cards| == |nodes| && forall n :: n in nodes ==> WritableNode(n)
    ensures |entries| == |nodes| && forall i :: 0 <= i < |nodes| ==> entries[i] == WriteNode(nodes[i], cards[i])
  {
    seq(|nodes|, i requires 0 <= i < |nodes| => WriteNode(nodes[i], cards[i]))
  }

  function WriteBook(book: Book, cards: seq<Card>): Spec
    requires |cards| == |book.nodes| && forall n :: n in book.nodes ==> WritableNode(n)
  {
    Spec(book.schema, book.id, book.version, book.title, book.metadata, book.variables, book.startNode,
         WriteNodes(book.nodes, cards))
  }

  // ----- reading back -----

  lemma {:induction false} ConditionReads(c: Option<Shorthand.Cond>)
    requires c.Some? ==> Shorthand.Writable(c.value)
    ensures ReadCondition(WriteCondition(c)) == Ok(c)
  {
    if c.Some? {
      hide Shorthand.Writable, Shorthand.Print, Shorthand.ParseCondition;
      Shorthand.ConditionRoundTrip(c.value);
      PrintedIsText(c.value);
    }
  }

  lemma {:induction false} PrintedIsText(c: Shorthand.Cond)
    requires Shorthand.Writable(c)
    ensures Shorthand.Print(c) != ""
  {
    if Shorthand.Print(c) == "" {
      hide Shorthand.Writable, Shorthand.Print;
      Shorthand.ConditionRoundTrip(c);
      BlankIsNoCondition();
    }
  }

  lemma BlankIsNoCondition()
    ensures Shorthand.ParseCondition("").Bad?
  {
  }

  lemma {:induction false} EffectsRead(e: Option<seq<Shorthand.Effect>>)
    requires WritableEffects(e)
    ensures ReadEffects(WriteEffects(e)) == Ok(e)
  {
    if e.Some? {
      if e.value == [] {
        BlankItems();
      } else {
        hide Shorthand.WritableEffect, Shorthand.ReadEffects, Shorthand.Split, Shorthand.Join;
        Shorthand.EffectsRoundTrip(e.value);
        var texts := Shorthand.PrintEffects(e.value);
        JoinedIsText(texts, e.value[0]);
      }
    }
  }

  lemma {:induction false} JoinedIsText(texts: seq<string>, first: Shorthand.Effect)
    requires texts != [] && texts[0] == Shorthand.PrintEffect(first)
    ensures Shorthand.Join(texts, ',') != ""
  {
    assert |Shorthand.PrintEffect(first)| >= 1 by {
      hide Shorthand.PrintValue;
    }
    hide Shorthand.PrintEffect;
  }

  lemma BlankItems()
    ensures Shorthand.ReadEffects(Shorthand.Split(",", ',')) == Shorthand.Ok([])
  {
    hide Shorthand.ReadEffect;
    assert ","[1..] == "";
    var items := ["", ""];
    assert Shorthand.Split(",", ',') == items;
    assert items[..1] == [""] && [""][..0] == [];
    assert Strip("") == "";
  }

  lemma {:induction false} RowExpands(node: string, index: nat, row: seq<string>,
        condition: Option<Shorthand.Cond>, effects: Option<seq<Shorthand.Effect>>)
    requires 2 <= |row| <= 4
    requires ReadCondition(if |row| >= 3 then row[2] else "") == Ok(condition)
    requires ReadEffects(if |row| == 4 then row[3] else "") == Ok(effects)
    ensures ExpandChoice(node, index, row) == Ok(Choice("c_" + node + "_" + Decimal(index), row[0], row[1], condition, effects))
  {
    hide ReadCondition, ReadEffects, Decimal;
  }

  lemma {:induction false} RowIs(c: Choice)
    requires WritableChoice(c)
    ensures var row := WriteRow(c);
            && 2 <= |row| <= 4 && row[0] == c.text && row[1] == c.target
            && (if |row| >= 3 then row[2] else "") == WriteCondition(c.condition)
            && (if |row| == 4 then row[3] else "") == WriteEffects(c.effects)
  {
    hide Shorthand.Writable, Shorthand.WritableEffect, Shorthand.Print;
  }

  lemma {:induction false} RowReads(node: string, index: nat, c: Choice)
    requires WritableChoice(c) && c.id == "c_" + node + "_" + Decimal(index)
    ensures ExpandChoice(node, index, WriteRow(c)) == Ok(c)
  {
    assert c.condition.Some? ==> Shorthand.Writable(c.condition.value);
    assert WritableEffects(c.effects);
    hide *;
    RowIs(c);
    ConditionReads(c.condition);
    EffectsRead(c.effects);
    RowExpands(node, index, WriteRow(c), c.condition, c.effects);
  }

  lemma {:induction false} RowsRead(node: string, choices: seq<Choice>)
    requires forall c :: c in choices ==> WritableChoice(c)
    requires forall i :: 0 <= i < |choices| ==> choices[i].id == "c_" + node + "_" + Decimal(i + 1)
    ensures ExpandChoices(node, WriteRows(choices)) == Ok(choices)
  {
    hide ExpandChoice, WritableChoice, WriteRow, Decimal;
    if choices != [] {
      var front, last := choices[..|choices| - 1], choices[|choices| - 1];
      RowsRead(node, front);
      RowReads(node, |choices|, last);
      assert WriteRows(choices)[..|choices| - 1] == WriteRows(front);
      assert choices == front + [last];
    }
  }

  lemma {:induction false} EndingSplits(e: Ending)
    requires WritableEnding(e)
    ensures Shorthand.Split(WriteEnding(e), '|') == [e.kind, e.valence, e.title] && WriteEnding(e) != ""
  {
    var parts := [e.kind, e.valence, e.title];
    JoinsThree(e.kind, e.valence, e.title, '|');
    assert WriteEnding(e) == Shorthand.Join(parts, '|');
    assert |WriteEnding(e)| >= 2;
    hide *;
    Shorthand.SplitJoin(parts, '|') by {
      PlainFields(e);
    }
  }

  lemma {:induction false} PlainStrips(s: string)
    requires PlainField(s)
    ensures '|' !in s && Strip(s) == s
  {
    if s == "" {
      assert Strip("") == "";
    } else {
      hide IsSpace;
    }
  }

  lemma {:induction false} PlainFields(e: Ending)
    requires WritableEnding(e)
    ensures Strip(e.kind) == e.kind && Strip(e.valence) == e.valence && Strip(e.title) == e.title
    ensures forall p :: p in [e.kind, e.valence, e.title] ==> '|' !in p
  {
    hide PlainField, Strip;
    PlainStrips(e.kind);
    PlainStrips(e.valence);
    PlainStrips(e.title);
  }

  lemma {:induction false} StripsThree(a: string, b: string, c: string)
    requires Strip(a) == a && Strip(b) == b && Strip(c) == c
    ensures StripAll([a, b, c]) == [a, b, c]
  {
    hide Strip;
  }

  lemma {:induction false} ThreeFields(node: string, text: string, a: string, b: string, c: string)
    requires Shorthand.Split(text, '|') == [a, b, c] && StripAll([a, b, c]) == [a, b, c]
    ensures ExpandEnding(node, text) == Ok(Ending("end_" + node, a, b, c))
  {
    hide Shorthand.Split, StripAll;
  }

  lemma {:induction false} EndingReads(node: string, e: Ending)
    requires WritableEnding(e) && e.id == "end_" + node
    ensures ExpandEnding(node, WriteEnding(e)) == Ok(e) && WriteEnding(e) != ""
  {
    assert e == Ending("end_" + node, e.kind, e.valence, e.title);
    hide *;
    EndingSplits(e);
    PlainFields(e);
    StripsThree(e.kind, e.valence, e.title);
    ThreeFields(node, WriteEnding(e), e.kind, e.valence, e.title);
  }

  lemma {:induction false} JoinsThree(a: string, b: string, c: string, sep: char)
    ensures Shorthand.Join([a, b, c], sep) == a + [sep] + b + [sep] + c
  {
    assert [a, b, c][1..] == [b, c] && [b, c][1..] == [c];
    assert Shorthand.Join([c], sep) == c && Shorthand.Join([b, c], sep) == b + [sep] + c;
    assert a + [sep] + (b + [sep] + c) == a + [sep] + b + [sep] + c;
  }

  lemma {:induction false} NodeReads(n: Node, card: Card, prose: Option<Prose>)
    requires WritableNode(n) && HasItsBody(n, card, prose)
    ensures ExpandNode(WriteNode(n, card), prose) == Ok(n)
  {
    EffectsRead(n.onEnter);
    if n.ending.Some? {
      EndingReads(n.id, n.ending.value);
    } else {
      RowsRead(n.id, n.choices);
    }
    hide ReadEffects, ExpandEnding, ExpandChoices, WritableChoice, WritableEffects, WriteEffects, WritableEnding, WriteEnding,
        Strip, Decimal, Shorthand.Signed, WriteRows;
  }

  lemma {:induction false} NodesRead(nodes: seq<Node>, cards: seq<Card>, prose: Option<Prose>)
    requires |cards| == |nodes| && forall n :: n in nodes ==> WritableNode(n)
    requires forall i :: 0 <= i < |nodes| ==> HasItsBody(nodes[i], cards[i], prose)
    ensures ExpandNodes(WriteNodes(nodes, cards), prose) == Ok(nodes)
  {
    hide ExpandNode, WritableNode, WriteNode, HasItsBody;
    if nodes != [] {
      var k := |nodes| - 1;
      NodesRead(nodes[..k], cards[..k], prose);
      NodeReads(nodes[k], cards[k], prose);
      assert WriteNodes(nodes, cards)[..k] == WriteNodes(nodes[..k], cards[..k]);
      assert nodes == nodes[..k] + [nodes[k]];
    }
  }

  /** How many nodes end the story. */
  function Endings(nodes: seq<Node>): (ends: set<nat>) {
    set i: nat | i < |nodes| && nodes[i].isEnding
  }

  lemma {:induction false} CountsEndings(nodes: seq<Node>)
    ensures EndingCount(nodes) == |Endings(nodes)|
  {
    if nodes != [] {
      var k := |nodes| - 1;
      CountsEndings(nodes[..k]);
      assert Endings(nodes) == Endings(nodes[..k]) + if nodes[k].isEnding then {k} else {};
    }
  }

  /** Compiling inverts writing. Every book whose ids are the minted ones, whose conditions and
      effects the shorthands can write and whose bodies are the directives or the stripped
      prose, comes back field for field: labels, targets, conditions, effects, endings, entry
      effects, scopes, variables and the count of its endings. */
  lemma {:induction false} CompilingInvertsWriting(book: Book, cards: seq<Card>, prose: Option<Prose>)
    requires book.nodes != [] && |cards| == |book.nodes| && forall n :: n in book.nodes ==> WritableNode(n)
    requires forall i :: 0 <= i < |book.nodes| ==> HasItsBody(book.nodes[i], cards[i], prose)
    requires book.endingCount == |set i: nat | i < |book.nodes| && book.nodes[i].isEnding|
    ensures BuildStory(WriteBook(book, cards), prose) == Ok(book)
  {
    hide WritableNode, HasItsBody, ExpandNodes, WriteNodes;
    NodesRead(book.nodes, cards, prose);
    CountsEndings(book.nodes);
  }

  // ----- errors -----

  lemma {:induction false} FirstBadNode(entries: seq<Entry>, prose: Option<Prose>, k: nat)
    requires k < |entries| && ExpandNode(entries[k], prose).Bad?
    requires forall i :: 0 <= i < k ==> ExpandNode(entries[i], prose).Ok?
    ensures ExpandNodes(entries, prose) == Bad(ExpandNode(entries[k], prose).error)
  {
    hide ExpandNode;
    if k < |entries| - 1 {
      FirstBadNode(entries[..|entries| - 1], prose, k);
    } else {
      AllGoodNodes(entries[..k], prose);
    }
  }

  lemma {:induction false} AllGoodNodes(entries: seq<Entry>, prose: Option<Prose>)
    requires forall i :: 0 <= i < |entries| ==> ExpandNode(entries[i], prose).Ok?
    ensures ExpandNodes(entries, prose).Ok?
  {
    hide ExpandNode;
    if entries != [] {
      AllGoodNodes(entries[..|entries| - 1], prose);
    }
  }

  lemma {:induction false} SplitCounts(s: string, sep: char)
    ensures |Shorthand.Split(s, sep)| == 1 + multiset(s)[sep]
  {
    if s != "" {
      SplitCounts(s[1..], sep);
      assert s == [s[0]] + s[1..];
    }
  }

  predicate Fits(row: seq<string>) {
    2 <= |row| <= 4
  }

  /** A fault says what is wrong: the id is empty, there is no prose, the ending does not have
      two separators, or the row of that place, the first such, has too few or too many fields. */
  ghost predicate FaultOf(error: Error, entry: Entry, prose: Option<Prose>) {
    match error
    case NoEntries => false
    case NoId => entry.id == ""
    case NoProse(node) => node == entry.id && prose.Some? && !HasProse(entry, prose.value)
    case EndingFields(node) => node == entry.id && entry.ending != "" && multiset(entry.ending)['|'] != 2
    case RowLength(node, index) => node == entry.id && entry.ending == "" && FirstMisfit(entry.rows, index)
    case BadShorthand(text) => entry.onEnter != "" || entry.ending == ""
  }

  ghost predicate FirstMisfit(rows: seq<seq<string>>, index: nat) {
    1 <= index <= |rows| && !Fits(rows[index - 1]) && forall row :: row in rows[..index - 1] ==> Fits(row)
  }

  lemma {:induction false} ChoiceFault(node: string, index: nat, row: seq<string>)
    ensures var r := ExpandChoice(node, index, row);
            && (r.Ok? ==> Fits(row))
            && (r.Bad? ==> (if Fits(row) then r.error.BadShorthand? else r.error == RowLength(node, index)))
  {
    hide Shorthand.ParseCondition, Shorthand.ReadEffects;
  }

  lemma {:induction false} RowFault(node: string, rows: seq<seq<string>>)
    ensures var r := ExpandChoices(node, rows);
            && (r.Ok? ==> forall row :: row in rows ==> Fits(row))
            && (r.Bad? ==> r.error.BadShorthand? || (r.error.RowLength? && r.error.node == node && FirstMisfit(rows, r.error.index)))
  {
    hide ExpandChoice, Fits;
    if rows != [] {
      var k := |rows| - 1;
      RowFault(node, rows[..k]);
      ChoiceFault(node, |rows|, rows[k]);
      var r := ExpandChoices(node, rows[..k]);
      if r.Bad? && r.error.RowLength? {
        assert rows[..k][..r.error.index - 1] == rows[..r.error.index - 1];
      }
    }
  }

  lemma {:induction false} NodeFault(entry: Entry, prose: Option<Prose>)
    requires ExpandNode(entry, prose).Bad?
    ensures FaultOf(ExpandNode(entry, prose).error, entry, prose)
  {
    SplitCounts(entry.ending, '|');
    RowFault(entry.id, entry.rows);
    hide ExpandChoices, FirstMisfit, Shorthand.ReadEffects, Shorthand.Split, Strip, Directive;
  }

  /** The story fails with the fault of its first bad entry. */
  lemma {:induction false} FirstFaultIsReported(spec: Spec, prose: Option<Prose>, k: nat)
    requires k < |spec.entries| && ExpandNode(spec.entries[k], prose).Bad?
    requires forall i :: 0 <= i < k ==> ExpandNode(spec.entries[i], prose).Ok?
    ensures BuildStory(spec, prose) == Bad(ExpandNode(spec.entries[k], prose).error)
    ensures FaultOf(BuildStory(spec, prose).error, spec.entries[k], prose)
  {
    hide ExpandNodes, ExpandNode, FaultOf;
    FirstBadNode(spec.entries, prose, k);
    NodeFault(spec.entries[k], prose);
  }

  // ----- what the structural comparison compares -----

  predicate SameChoice(a: Choice, b: Choice) {
    a.id == b.id && a.target == b.target && a.condition == b.condition && a.effects == b.effects
  }

  predicate SameEnding(a: Ending, b: Ending, titles: bool) {
    a.id == b.id && a.kind == b.kind && a.valence == b.valence && (titles || a.title == b.title)
  }

  /** The same node but for its body and its labels, and for its ending's title if titles are leaves. */
  predicate SameNode(a: Node, b: Node, titles: bool) {
    && a.id == b.id && a.isEnding == b.isEnding && a.onEnter == b.onEnter && a.scope == b.scope
    && |a.choices| == |b.choices|
    && (forall k :: 0 <= k < |a.choices| ==> SameChoice(a.choices[k], b.choices[k]))
    && a.ending.Some? == b.ending.Some?
    && (a.ending.Some? ==> SameEnding(a.ending.value, b.ending.value, titles))
  }

  predicate SameStructure(a: Book, b: Book, titles: bool) {
    && a.schema == b.schema && a.id == b.id && a.version == b.version && a.metadata == b.metadata
    && a.endingCount == b.endingCount && a.startNode == b.startNode && (titles || a.title == b.title)
    && |a.variables| == |b.variables|
    && (forall v :: 0 <= v < |a.variables| ==>
         a.variables[v].name == b.variables[v].name && a.variables[v].machine == b.variables[v].machine)
    && |a.nodes| == |b.nodes|
    && forall i :: 0 <= i < |a.nodes| ==> SameNode(a.nodes[i], b.nodes[i], titles)
  }

  lemma {:induction false} NodesStripAlike(a: Node, b: Node, titles: bool)
    ensures StripNode(a, titles) == StripNode(b, titles) <==> SameNode(a, b, titles)
  {
    var x, y := StripChoices(a.choices), StripChoices(b.choices);
    assert x == y <==> |a.choices| == |b.choices| && forall k :: 0 <= k < |a.choices| ==> SameChoice(a.choices[k], b.choices[k]) by {
      if x == y {
        forall k | 0 <= k < |a.choices|
          ensures SameChoice(a.choices[k], b.choices[k])
        {
          assert x[k] == y[k];
        }
      }
    }
    hide StripChoices, SameChoice;
  }

  /** Two books pass the structural comparison exactly when they differ in nothing but leaves:
      bodies, labels and variable descriptions, and the titles where those are free. */
  lemma {:induction false} StripAlikeIff(a: Book, b: Book, titles: bool)
    ensures StripLeaves(a, titles) == StripLeaves(b, titles) <==> SameStructure(a, b, titles)
  {
    var x, y := StripLeaves(a, titles), StripLeaves(b, titles);
    forall i | 0 <= i < |a.nodes| && i < |b.nodes|
      ensures x.nodes[i] == y.nodes[i] <==> SameNode(a.nodes[i], b.nodes[i], titles)
    {
      NodesStripAlike(a.nodes[i], b.nodes[i], titles);
    }
    hide StripNode, SameNode;
    if x == y {
      forall v | 0 <= v < |a.variables|
        ensures a.variables[v].name == b.variables[v].name && a.variables[v].machine == b.variables[v].machine
      {
        assert x.variables[v] == y.variables[v];
      }
      forall i | 0 <= i < |a.nodes|
        ensures SameNode(a.nodes[i], b.nodes[i], titles)
      {
        assert x.nodes[i] == y.nodes[i];
      }
    }
    if SameStructure(a, b, titles) {
      assert x.variables == y.variables && x.nodes == y.nodes;
    }
  }
}
