/** The compiler of `scripts/build_series_book.py`: one spec, two targets. */
module SeriesBook {

  import opened Collections
  import opened Text
  import opened Digits
  import Shorthand
  import Stories
  import StringOrder
  import StoryGraph

  /** A spec entry. Absent texts are empty; a choice row is the list of its fields. */
  datatype Entry = Entry(id: string, role: string, words: int, beats: string, rows: seq<seq<string>>,
        ending: string, onEnter: string, scope: seq<string>)

  datatype Variable = Variable(name: string, description: string, machine: string)

  datatype Spec = Spec(schema: string, id: string, version: int, title: string, metadata: string,
    variables: seq<Variable>, startNode: string, entries: seq<Entry>)

  datatype Choice = Choice(id: string, text: string, target: string, condition: Option<Shorthand.Cond>,
        effects: Option<seq<Shorthand.Effect>>)

  datatype Ending = Ending(id: string, kind: string, valence: string, title: string)

  datatype Node = Node(id: string, body: string, isEnding: bool, choices: seq<Choice>, ending: Option<Ending>,
    onEnter: Option<seq<Shorthand.Effect>>, scope: seq<string>)

  datatype Book = Book(schema: string, id: string, version: int, title: string, metadata: string, endingCount: nat,
    variables: seq<Variable>, startNode: string, nodes: seq<Node>)

  datatype Error =
    | NoEntries
    | NoId
    | NoProse(node: string)
    | RowLength(node: string, index: nat)
    | EndingFields(node: string)
    | BadShorthand(text: string)

  datatype Result<T> = Ok(value: T) | Bad(error: Error)

  /** The prose sidecar of a filled story; a skeleton is compiled without one. */
  type Prose = map<string, string>

  // ----- one choice, one ending, one node -----

  function MintChoice(node: string, index: nat): string {
    "c_" + node + "_" + Decimal(index)
  }

  function ReadCondition(text: string): Result<Option<Shorthand.Cond>> {
    if text == "" then Ok(None)
    else
      match Shorthand.ParseCondition(text)
      case Ok(c) => Ok(Some(c))
      case Bad(bad) => Bad(BadShorthand(bad))
  }

  function ReadEffects(text: string): Result<Option<seq<Shorthand.Effect>>> {
    if text == "" then Ok(None)
    else
      match Shorthand.ReadEffects(Shorthand.Split(text, ','))
      case Ok(effects) => Ok(Some(effects))
      case Bad(bad) => Bad(BadShorthand(bad))
  }

  function ExpandChoice(node: string, index: nat, row: seq<string>): (r: Result<Choice>)
    ensures r.Ok? ==> r.value.id == MintChoice(node, index) && |row| >= 2 && r.value.text == row[0] && r.value.target == row[1]
    ensures !(2 <= |row| <= 4) ==> r == Bad(RowLength(node, index))
  {
    if !(2 <= |row| <= 4) then Bad(RowLength(node, index))
    else
      match ReadCondition(if |row| >= 3 then row[2] else "")
      case Bad(error) => Bad(error)
      case Ok(condition) =>
        match ReadEffects(if |row| == 4 then row[3] else "")
        case Bad(error) => Bad(error)
        case Ok(effects) => Ok(Choice(MintChoice(node, index), row[0], row[1], condition, effects))
  }

  function ExpandChoices(node: string, rows: seq<seq<string>>): (r: Result<seq<Choice>>)
    ensures r.Ok? ==> |r.value| == |rows|
    ensures r.Ok? ==> forall i :: 0 <= i < |rows| ==> r.value[i].id == MintChoice(node, i + 1)
  {
    if rows == [] then Ok([])
    else
      match ExpandChoices(node, rows[..|rows| - 1])
      case Bad(error) => Bad(error)
      case Ok(before) =>
        match ExpandChoice(node, |rows|, rows[|rows| - 1])
        case Bad(error) => Bad(error)
        case Ok(choice) => Ok(before + [choice])
  }

  function StripAll(parts: seq<string>): (stripped: seq<string>)
    ensures |stripped| == |parts|
  {
    seq(|parts|, i requires 0 <= i < |parts| => Strip(parts[i]))
  }

  function ExpandEnding(node: string, text: string): Result<Ending> {
    var parts := StripAll(Shorthand.Split(text, '|'));
    if |parts| != 3 then Bad(EndingFields(node)) else Ok(Ending("end_" + node, parts[0], parts[1], parts[2]))
  }

  function Printed(n: int): string {
    Shorthand.Signed(n)
  }

  function Directive(entry: Entry): string {
    "<<FILL role=" + entry.role + " words=" + Printed(entry.words) + " beats='" + entry.beats + "'>>"
  }

  /** The body of a node: the fill directive, or the node's stripped prose. */
  function Body(entry: Entry, prose: Option<Prose>): Result<string> {
    match prose
    case None => Ok(Directive(entry))
    case Some(texts) =>
      if entry.id in texts && Strip(texts[entry.id]) != "" then Ok(Strip(texts[entry.id])) else Bad(NoProse(entry.id))
  }

  /** Everything of a node but its body. */
  function ExpandRest(entry: Entry, body: string): (r: Result<Node>)
    ensures r.Ok? ==> r.value.id == entry.id && r.value.body == body && (r.value.isEnding ==> r.value.choices == [])
  {
    match ReadEffects(entry.onEnter)
    case Bad(error) => Bad(error)
    case Ok(onEnter) =>
      if entry.ending != "" then
        match ExpandEnding(entry.id, entry.ending)
        case Bad(error) => Bad(error)
        case Ok(ending) => Ok(Node(entry.id, body, true, [], Some(ending), onEnter, entry.scope))
      else
        match ExpandChoices(entry.id, entry.rows)
        case Bad(error) => Bad(error)
        case Ok(choices) => Ok(Node(entry.id, body, false, choices, None, onEnter, entry.scope))
  }

  function ExpandNode(entry: Entry, prose: Option<Prose>): (r: Result<Node>)
    ensures r.Ok? ==> r.value.id == entry.id != "" && (r.value.isEnding ==> r.value.choices == [])
  {
    if entry.id == "" then Bad(NoId)
    else
      match Body(entry, prose)
      case Bad(error) => Bad(error)
      case Ok(body) => ExpandRest(entry, body)
  }

  function ExpandNodes(entries: seq<Entry>, prose: Option<Prose>): (r: Result<seq<Node>>)
    ensures r.Ok? ==> |r.value| == |entries|
  {
    if entries == [] then Ok([])
    else
      match ExpandNodes(entries[..|entries| - 1], prose)
      case Bad(error) => Bad(error)
      case Ok(before) =>
        match ExpandNode(entries[|entries| - 1], prose)
        case Bad(error) => Bad(error)
        case Ok(node) => Ok(before + [node])
  }

  lemma {:induction false} NodesAre(entries: seq<Entry>, prose: Option<Prose>, i: nat)
    requires ExpandNodes(entries, prose).Ok? && i < |entries|
    ensures ExpandNode(entries[i], prose) == Ok(ExpandNodes(entries, prose).value[i])
  {
    hide ExpandNode;
    if i < |entries| - 1 {
      NodesAre(entries[..|entries| - 1], prose, i);
    }
  }

  function EndingCount(nodes: seq<Node>): nat {
    if nodes == [] then 0 else EndingCount(nodes[..|nodes| - 1]) + if nodes[|nodes| - 1].isEnding then 1 else 0
  }

  function BuildStory(spec: Spec, prose: Option<Prose>): (r: Result<Book>)
    ensures r.Ok? ==> |r.value.nodes| == |spec.entries| > 0 && r.value.startNode == spec.startNode
    ensures r.Ok? ==> ExpandNodes(spec.entries, prose) == Ok(r.value.nodes) && r.value.endingCount == EndingCount(r.value.nodes)
  {
    if spec.entries == [] then Bad(NoEntries)
    else
      match ExpandNodes(spec.entries, prose)
      case Bad(error) => Bad(error)
      case Ok(nodes) =>
        Ok(Book(spec.schema, spec.id, spec.version, spec.title, spec.metadata, EndingCount(nodes), spec.variables,
            spec.startNode, nodes))
  }

  // ----- one spec, two targets -----

  /** A document without its leaf fields, as the fill checker compares it: bodies, choice
      labels and variable descriptions go, and with `titles` the titles too. */
  function StripChoices(choices: seq<Choice>): (stripped: seq<Choice>)
    ensures |stripped| == |choices| && forall i :: 0 <= i < |choices| ==> stripped[i] == choices[i].(text := "")
  {
    seq(|choices|, i requires 0 <= i < |choices| => choices[i].(text := ""))
  }

  function StripNode(node: Node, titles: bool): Node {
    node.(body := "", choices := StripChoices(node.choices),
          ending := if titles && node.ending.Some? then Some(node.ending.value.(title := "")) else node.ending)
  }

  function StripLeaves(book: Book, titles: bool): (stripped: Book)
    ensures |stripped.nodes| == |book.nodes| && |stripped.variables| == |book.variables|
  {
    book.(title := if titles then "" else book.title,
          variables := seq(|book.variables|, i requires 0 <= i < |book.variables| => book.variables[i].(description := "")),
          nodes := seq(|book.nodes|, i requires 0 <= i < |book.nodes| => StripNode(book.nodes[i], titles)))
  }

  lemma {:induction false} RestIgnoresBody(entry: Entry, a: string, b: string)
    ensures ExpandRest(entry, a).Ok? == ExpandRest(entry, b).Ok?
    ensures ExpandRest(entry, a).Ok? ==> ExpandRest(entry, b).value == ExpandRest(entry, a).value.(body := b)
    ensures ExpandRest(entry, a).Bad? ==> ExpandRest(entry, a) == ExpandRest(entry, b)
  {
  }

  /** Whether an entry has prose of its own to be filled with. */
  predicate HasProse(entry: Entry, prose: Prose) {
    entry.id in prose && Strip(prose[entry.id]) != ""
  }

  lemma {:induction false} NodeTwins(entry: Entry, prose: Prose)
    ensures ExpandNode(entry, Some(prose)).Ok? <==> ExpandNode(entry, None).Ok? && HasProse(entry, prose)
    ensures ExpandNode(entry, Some(prose)).Ok? ==>
              && ExpandNode(entry, Some(prose)).value.body == Strip(prose[entry.id])
              && ExpandNode(entry, None).value == ExpandNode(entry, Some(prose)).value.(body := Directive(entry))
  {
    hide ExpandRest, Directive, Strip;
    if entry.id != "" && HasProse(entry, prose) {
      RestIgnoresBody(entry, Directive(entry), Strip(prose[entry.id]));
    }
  }

  ghost predicate AllHaveProse(entries: seq<Entry>, prose: Prose) {
    forall i :: 0 <= i < |entries| ==> HasProse(entries[i], prose)
  }

  lemma {:induction false} NodesStep(entries: seq<Entry>, prose: Option<Prose>)
    requires entries != []
    ensures ExpandNodes(entries, prose).Ok?
       <==> ExpandNodes(entries[..|entries| - 1], prose).Ok? && ExpandNode(entries[|entries| - 1], prose).Ok?
  {
    hide ExpandNode;
  }

  lemma {:induction false} AllProseStep(entries: seq<Entry>, prose: Prose)
    requires entries != []
    ensures AllHaveProse(entries, prose)
       <==> AllHaveProse(entries[..|entries| - 1], prose) && HasProse(entries[|entries| - 1], prose)
  {
    hide HasProse;
  }

  lemma {:induction false} NoNodes(prose: Option<Prose>)
    ensures ExpandNodes([], prose).Ok?
  {
  }

  lemma {:induction false} NodesTwin(entries: seq<Entry>, prose: Prose)
    ensures ExpandNodes(entries, Some(prose)).Ok? <==> ExpandNodes(entries, None).Ok? && AllHaveProse(entries, prose)
  {
    hide ExpandNode, HasProse, ExpandNodes;
    if entries == [] {
      NoNodes(None);
      NoNodes(Some(prose));
    } else {
      hide AllHaveProse;
      NodesTwin(entries[..|entries| - 1], prose);
      NodeTwins(entries[|entries| - 1], prose);
      NodesStep(entries, Some(prose));
      NodesStep(entries, None);
      AllProseStep(entries, prose);
    }
  }

  lemma {:induction false} SameEndings(a: seq<Node>, b: seq<Node>)
    requires |a| == |b| && forall i :: 0 <= i < |a| ==> a[i].isEnding == b[i].isEnding
    ensures EndingCount(a) == EndingCount(b)
  {
    if a != [] {
      SameEndings(a[..|a| - 1], b[..|b| - 1]);
    }
  }

  /** A spec compiles to a filled story exactly when it compiles to a skeleton and every
      entry has prose, and then the two differ in bodies only: stripped of their leaves,
      with titles or without, they are the same document. */
  lemma {:induction false} SkeletonMatchesFilled(spec: Spec, prose: Prose)
    ensures BuildStory(spec, Some(prose)).Ok?
       <==> BuildStory(spec, None).Ok? && AllHaveProse(spec.entries, prose)
    ensures BuildStory(spec, Some(prose)).Ok? ==>
              var skeleton, filled := BuildStory(spec, None).value, BuildStory(spec, Some(prose)).value;
              && (forall titles :: StripLeaves(skeleton, titles) == StripLeaves(filled, titles))
              && forall i :: 0 <= i < |spec.entries| ==> filled.nodes[i].body == Strip(prose[spec.entries[i].id])
  {
    NodesTwin(spec.entries, prose);
    hide ExpandNode, ExpandNodes, Strip;
    if BuildStory(spec, Some(prose)).Ok? {
      var skeleton, filled := BuildStory(spec, None).value, BuildStory(spec, Some(prose)).value;
      forall i | 0 <= i < |spec.entries|
        ensures skeleton.nodes[i] == filled.nodes[i].(body := Directive(spec.entries[i]))
        ensures filled.nodes[i].body == Strip(prose[spec.entries[i].id])
      {
        NodesAre(spec.entries, None, i);
        NodesAre(spec.entries, Some(prose), i);
        NodeTwins(spec.entries[i], prose);
      }
      SameEndings(skeleton.nodes, filled.nodes);
      forall titles: bool
        ensures StripLeaves(skeleton, titles) == StripLeaves(filled, titles)
      {
        assert StripLeaves(skeleton, titles).nodes == StripLeaves(filled, titles).nodes;
        assert StripLeaves(skeleton, titles).variables == StripLeaves(filled, titles).variables;
      }
    }
  }

  // ----- minted ids -----

  lemma DecimalHasNoUnderscore(n: nat)
    ensures '_' !in Decimal(n)
  {
    var d := Decimal(n);
    forall i | 0 <= i < |d|
      ensures d[i] != '_'
    {
      assert IsDigit(d[i]);
    }
  }

  /** Two texts split alike at their last underscore. */
  lemma {:induction false} LastUnderscore(a: string, x: string, b: string, y: string)
    requires a + "_" + x == b + "_" + y && '_' !in x && '_' !in y
    ensures a == b && x == y
  {
    var s := a + "_" + x;
    assert s[|a|] == '_' && s[|b|] == '_';
    assert s[..|a|] == a && s[..|b|] == b && s[|a| + 1..] == x && s[|b| + 1..] == y;
  }

  /** A minted choice id names its node and its position, whatever underscores the node id has. */
  lemma {:induction false} MintedNamesItsPlace(node: string, index: nat, other: string, place: nat)
    requires MintChoice(node, index) == MintChoice(other, place)
    ensures node == other && index == place
  {
    var x, y := Decimal(index), Decimal(place);
    DecimalHasNoUnderscore(index);
    DecimalHasNoUnderscore(place);
    assert MintChoice(node, index)[2..] == node + "_" + x && MintChoice(other, place)[2..] == other + "_" + y;
    LastUnderscore(node, x, other, y);
    ValueOfDecimal(index);
    ValueOfDecimal(place);
  }

  ghost predicate UniqueIds(nodes: seq<Node>) {
    forall i, j :: 0 <= i < j < |nodes| ==> nodes[i].id != nodes[j].id
  }

  lemma {:induction false} ChoicesOfNode(entry: Entry, prose: Option<Prose>, k: nat)
    requires ExpandNode(entry, prose).Ok? && k < |ExpandNode(entry, prose).value.choices|
    ensures ExpandNode(entry, prose).value.choices[k].id == MintChoice(entry.id, k + 1)
  {
    hide MintChoice, ExpandChoice, ReadEffects;
  }

  /** With distinct node ids, every choice of a compiled book has an id of its own. */
  lemma {:induction false} MintedIdsAreUnique(spec: Spec, prose: Option<Prose>, book: Book, i: nat, k: nat, j: nat, l: nat)
    requires BuildStory(spec, prose) == Ok(book) && UniqueIds(book.nodes)
    requires i < |book.nodes| && k < |book.nodes[i].choices|
    requires j < |book.nodes| && l < |book.nodes[j].choices| && (i != j || k != l)
    ensures book.nodes[i].choices[k].id != book.nodes[j].choices[l].id
  {
    hide MintChoice, ExpandNodes, BuildStory, ExpandNode;
    BuiltFrom(spec, prose);
    NodesAre(spec.entries, prose, i);
    NodesAre(spec.entries, prose, j);
    ChoicesOfNode(spec.entries[i], prose, k);
    ChoicesOfNode(spec.entries[j], prose, l);
    if book.nodes[i].choices[k].id == book.nodes[j].choices[l].id {
      MintedNamesItsPlace(spec.entries[i].id, k + 1, spec.entries[j].id, l + 1);
    }
  }

  lemma {:induction false} BuiltFrom(spec: Spec, prose: Option<Prose>)
    requires BuildStory(spec, prose).Ok?
    ensures ExpandNodes(spec.entries, prose) == Ok(BuildStory(spec, prose).value.nodes)
  {
  }

  // ----- the structural diagnostics -----

  datatype Line = Dangling(node: string, target: string, text: string) | NoChoice(node: string) | Unreached(node: string)

  function Ids(nodes: seq<Node>): (ids: set<string>)
    ensures forall n :: n in nodes ==> n.id in ids
    ensures forall id :: id in ids ==> exists i :: 0 <= i < |nodes| && nodes[i].id == id
  {
    set i | 0 <= i < |nodes| :: nodes[i].id
  }

  /** An edge of the choice graph the library searches: some node of that id offers it. */
  ghost predicate ChoiceEdge(nodes: seq<Node>, u: string, v: string) {
    v in Ids(nodes) && exists i, k ::
          0 <= i < |nodes| && 0 <= k < |nodes[i].choices| && nodes[i].id == u && nodes[i].choices[k].target == v
  }

  ghost predicate ChoicePath(nodes: seq<Node>, p: seq<string>) {
    |p| > 0 && p[0] in Ids(nodes) && forall i :: 0 < i < |p| ==> ChoiceEdge(nodes, p[i - 1], p[i])
  }

  ghost predicate ChoiceReaches(nodes: seq<Node>, u: string, v: string) {
    exists p :: ChoicePath(nodes, p) && p[0] == u && p[|p| - 1] == v
  }

  function DanglingLines(node: Node, ids: set<string>, k: nat): seq<Line>
    requires k <= |node.choices|
  {
    if k == 0 then []
    else
      var c := node.choices[k - 1];
      DanglingLines(node, ids, k - 1) + if c.target in ids then [] else [Dangling(node.id, c.target, c.text)]
  }

  function NodeLines(nodes: seq<Node>, ids: set<string>): seq<Line> {
    if nodes == [] then []
    else
      var n := nodes[|nodes| - 1];
      NodeLines(nodes[..|nodes| - 1], ids) + DanglingLines(n, ids, |n.choices|)
      + if !n.isEnding && n.choices == [] then [NoChoice(n.id)] else []
  }

  function Unreacheds(ids: seq<string>): (lines: seq<Line>)
    ensures |lines| == |ids| && forall i :: 0 <= i < |ids| ==> lines[i] == Unreached(ids[i])
  {
    seq(|ids|, i requires 0 <= i < |ids| => Unreached(ids[i]))
  }

  /** One node's diagnostics. */
  method NodeDiagnostics(node: Node, ids: set<string>) returns (lines: seq<Line>)
    ensures lines == DanglingLines(node, ids, |node.choices|) + if !node.isEnding && node.choices == []
          then [NoChoice(node.id)] else []
  {
    lines := [];
    for k := 0 to |node.choices|
      invariant lines == DanglingLines(node, ids, k)
    {
      if node.choices[k].target !in ids {
        lines := lines + [Dangling(node.id, node.choices[k].target, node.choices[k].text)];
      }
    }
    if !node.isEnding && node.choices == [] {
      lines := lines + [NoChoice(node.id)];
    }
  }

  /** What the diagnostics must be, given what the graph library finds reachable. */
  ghost predicate Diagnoses(book: Book, lines: seq<Line>) {
    exists missing :: StringOrder.Lists(missing, set id | id in Ids(book.nodes) && !ChoiceReaches(book.nodes, book.startNode, id))
      && lines == NodeLines(book.nodes, Ids(book.nodes)) + Unreacheds(missing)
  }

  /** The diagnostics of a compiled book; `reachable` is what the graph library reports. */
  method StructureLines(book: Book, reachable: set<string>) returns (lines: seq<Line>)
    requires forall id :: id in reachable <==> id in Ids(book.nodes) && ChoiceReaches(book.nodes, book.startNode, id)
    ensures Diagnoses(book, lines)
  {
    hide Ids, DanglingLines, ChoiceReaches;
    var ids := Ids(book.nodes);
    lines := [];
    for n := 0 to |book.nodes|
      invariant lines == NodeLines(book.nodes[..n], ids)
    {
      assert book.nodes[..n + 1][..n] == book.nodes[..n];
      var more := NodeDiagnostics(book.nodes[n], ids);
      NodeLinesStep(book.nodes[..n], book.nodes[n], ids);
      assert book.nodes[..n + 1] == book.nodes[..n] + [book.nodes[n]];
      lines := lines + more;
    }
    assert book.nodes[..|book.nodes|] == book.nodes;
    var missing := StringOrder.Sorted(ids - reachable);
    assert ids - reachable == set id | id in ids && !ChoiceReaches(book.nodes, book.startNode, id);
    lines := lines + Unreacheds(missing);
  }

  lemma {:induction false} NodeLinesStep(nodes: seq<Node>, n: Node, ids: set<string>)
    ensures NodeLines(nodes + [n], ids)
         == NodeLines(nodes, ids) + (DanglingLines(n, ids, |n.choices|) + if !n.isEnding && n.choices == []
               then [NoChoice(n.id)] else [])
  {
    hide DanglingLines;
    assert (nodes + [n])[..|nodes|] == nodes;
  }

  // ----- the diagnostics agree with the story checker -----

  /** The document as the story checker reads it. */
  function ToChoices(choices: seq<Choice>): (them: seq<Stories.Choice>)
    ensures |them| == |choices| && forall k :: 0 <= k < |choices| ==>
          them[k] == Stories.Choice(choices[k].id, choices[k].text, choices[k].target)
  {
    seq(|choices|, k requires 0 <= k < |choices| => Stories.Choice(choices[k].id, choices[k].text, choices[k].target))
  }

  function ToNode(n: Node): Stories.Node {
    Stories.Node(n.id, n.body, n.isEnding, ToChoices(n.choices),
      if n.ending.Some?
            then Some(Stories.Ending(Some(n.ending.value.id), Some(n.ending.value.kind), n.ending.value.title))
            else None)
  }

  function ToStory(book: Book): (story: Stories.Story)
    ensures |story.nodes| == |book.nodes| && forall i :: 0 <= i < |book.nodes| ==> story.nodes[i] == ToNode(book.nodes[i])
    ensures story.startNode == book.startNode
  {
    Stories.Story(Some(book.id), Some(Printed(book.version)), book.title, book.startNode,
      seq(|book.nodes|, i requires 0 <= i < |book.nodes| => ToNode(book.nodes[i])))
  }

  /** Unique, non-empty ids; choices that name a target; a start that exists. */
  ghost predicate Plain(book: Book) {
    && UniqueIds(book.nodes)
    && (forall i :: 0 <= i < |book.nodes| ==> book.nodes[i].id != "")
    && (forall i, k :: 0 <= i < |book.nodes| && 0 <= k < |book.nodes[i].choices| ==> book.nodes[i].choices[k].target != "")
    && book.startNode in Ids(book.nodes)
  }

  lemma {:induction false} GraphHolds(book: Book, i: nat)
    requires Plain(book) && i < |book.nodes|
    ensures var g := StoryGraph.GraphOf(ToStory(book)).node;
            book.nodes[i].id in g && g[book.nodes[i].id] == ToNode(book.nodes[i])
  {
    hide StoryGraph.Index, ToNode;
    var nodes := ToStory(book).nodes;
    assert forall k :: 0 <= k < |nodes| ==> nodes[k].id == book.nodes[k].id by {
      hide ToStory;
      forall k | 0 <= k < |nodes|
        ensures nodes[k].id == book.nodes[k].id
      {
        KeepsId(book.nodes[k]);
      }
    }
    StoryGraph.LastOneWins(nodes, i);
  }

  lemma {:induction false} KeepsId(n: Node)
    ensures ToNode(n).id == n.id && ToNode(n).isEnding == n.isEnding && (ToNode(n).choices == [] <==> n.choices == [])
  {
  }

  /** The checker's graph has exactly the book's ids. */
  lemma {:induction false} GraphIds(book: Book, id: string)
    requires Plain(book)
    ensures id in StoryGraph.GraphOf(ToStory(book)).node <==> id in Ids(book.nodes)
  {
    hide StoryGraph.Index, ToNode;
    var g := StoryGraph.GraphOf(ToStory(book)).node;
    if id in g {
      var i :| 0 <= i < |ToStory(book).nodes| && ToStory(book).nodes[i] == g[id];
      KeepsId(book.nodes[i]);
    }
    if id in Ids(book.nodes) {
      var i :| 0 <= i < |book.nodes| && book.nodes[i].id == id;
      GraphHolds(book, i);
    }
  }

  lemma {:induction false} TargetsAre(n: Node, t: string)
    requires t != ""
    ensures t in Stories.Targets(ToNode(n).choices) <==> exists k :: 0 <= k < |n.choices| && n.choices[k].target == t
  {
    hide Stories.Targets;
    var them := ToChoices(n.choices);
    if k :| 0 <= k < |n.choices| && n.choices[k].target == t {
      assert them[k].target == t;
    }
    if k :| 0 <= k < |them| && them[k].target == t {
      assert n.choices[k].target == t;
    }
  }

  /** The two graphs have the same edges. */
  lemma {:induction false} SameEdges(book: Book, u: string, v: string)
    requires Plain(book)
    ensures ChoiceEdge(book.nodes, u, v) <==> StoryGraph.Edge(StoryGraph.GraphOf(ToStory(book)), u, v)
  {
    hide StoryGraph.GraphOf, ToNode, ToStory, Stories.Targets, Ids;
    var g := StoryGraph.GraphOf(ToStory(book));
    GraphIds(book, u);
    GraphIds(book, v);
    if i, k :| 0 <= i < |book.nodes| && 0 <= k < |book.nodes[i].choices|
               && book.nodes[i].id == u && book.nodes[i].choices[k].target == v {
      GraphHolds(book, i);
      TargetsAre(book.nodes[i], v);
    }
    if StoryGraph.Edge(g, u, v) {
      var i :| 0 <= i < |book.nodes| && book.nodes[i].id == u;
      GraphHolds(book, i);
      TargetsAre(book.nodes[i], v);
    }
  }

  lemma {:induction false} SameReach(book: Book, u: string, v: string)
    requires Plain(book)
    ensures ChoiceReaches(book.nodes, u, v) <==> StoryGraph.Reaches(StoryGraph.GraphOf(ToStory(book)), u, v)
  {
    hide StoryGraph.GraphOf, ToStory, ChoiceEdge, StoryGraph.Edge, Ids, Plain;
    var g := StoryGraph.GraphOf(ToStory(book));
    forall p: seq<string> | |p| > 0
      ensures ChoicePath(book.nodes, p) <==> StoryGraph.Path(g, p)
    {
      GraphIds(book, p[0]);
      forall i | 0 < i < |p|
        ensures ChoiceEdge(book.nodes, p[i - 1], p[i]) <==> StoryGraph.Edge(g, p[i - 1], p[i])
      {
        SameEdges(book, p[i - 1], p[i]);
      }
    }
    if p :| ChoicePath(book.nodes, p) && p[0] == u && p[|p| - 1] == v {
      assert StoryGraph.PathFrom(g, p, u, v);
    }
    if p :| StoryGraph.PathFrom(g, p, u, v) {
      assert ChoicePath(book.nodes, p);
    }
  }

  /** The defect a line names is really the node's. */
  ghost predicate LineOf(n: Node, ids: set<string>, l: Line) {
    l.node == n.id
    && match l
       case Dangling(_, target, text) =>
         target !in ids && exists k :: 0 <= k < |n.choices| && n.choices[k].target == target && n.choices[k].text == text
       case NoChoice(_) => !n.isEnding && n.choices == []
       case Unreached(_) => false
  }

  lemma {:induction false} DanglingLineMembers(n: Node, ids: set<string>, k: nat, l: Line)
    requires k <= |n.choices|
    ensures l in DanglingLines(n, ids, k)
       <==> exists j :: 0 <= j < k && n.choices[j].target !in ids && l == Dangling(n.id, n.choices[j].target, n.choices[j].text)
  {
    if k > 0 {
      DanglingLineMembers(n, ids, k - 1, l);
    }
  }

  lemma {:induction false} NodeLineMembers(n: Node, ids: set<string>, l: Line)
    ensures l in DanglingLines(n, ids, |n.choices|) + (if !n.isEnding && n.choices == [] then [NoChoice(n.id)] else [])
       <==> LineOf(n, ids, l)
  {
    DanglingLineMembers(n, ids, |n.choices|, l);
    hide DanglingLines;
  }

  lemma {:induction false} LineMembers(nodes: seq<Node>, ids: set<string>, l: Line)
    ensures l in NodeLines(nodes, ids) <==> exists i :: 0 <= i < |nodes| && LineOf(nodes[i], ids, l)
  {
    hide DanglingLines, LineOf;
    if nodes != [] {
      hide NodeLines;
      var front, n := nodes[..|nodes| - 1], nodes[|nodes| - 1];
      assert nodes == front + [n];
      LineMembers(front, ids, l);
      NodeLinesStep(front, n, ids);
      NodeLineMembers(n, ids, l);
      assert forall i :: 0 <= i < |front| ==> nodes[i] == front[i];
    }
  }

  lemma {:induction false} UnreachedMembers(ids: seq<string>, l: Line)
    ensures l in Unreacheds(ids) <==> l.Unreached? && l.node in ids
  {
    if l.Unreached? && l.node in ids {
      var i :| 0 <= i < |ids| && ids[i] == l.node;
      assert Unreacheds(ids)[i] == l;
    }
  }

  /** A line is on the list exactly when a node of the book has what it names. */
  lemma {:induction false} DiagnosesExactly(book: Book, lines: seq<Line>, l: Line)
    requires Diagnoses(book, lines)
    ensures l in lines
       <==> (if l.Unreached? then l.node in Ids(book.nodes) && !ChoiceReaches(book.nodes, book.startNode, l.node)
             else exists i :: 0 <= i < |book.nodes| && LineOf(book.nodes[i], Ids(book.nodes), l))
  {
    hide Ids, NodeLines, ChoiceReaches;
    var missing :| StringOrder.Lists(missing, set id | id in Ids(book.nodes) && !ChoiceReaches(book.nodes, book.startNode, id))
      && lines == NodeLines(book.nodes, Ids(book.nodes)) + Unreacheds(missing);
    LineMembers(book.nodes, Ids(book.nodes), l);
    UnreachedMembers(missing, l);
  }

  /** The node a graph id stands for. */
  lemma {:induction false} NodeAt(book: Book, id: string) returns (i: nat)
    requires Plain(book) && id in Ids(book.nodes)
    ensures i < |book.nodes| && book.nodes[i].id == id
    ensures var g := StoryGraph.GraphOf(ToStory(book)).node; id in g && g[id] == ToNode(book.nodes[i])
  {
    i :| 0 <= i < |book.nodes| && book.nodes[i].id == id;
    GraphHolds(book, i);
  }

  /** A dangling line, a no-choice line and an unreached line stand for the checker's dangling,
      sink and unreachable failures at the same node, and only for those. */
  lemma {:induction false} LinesAreFailures(book: Book, lines: seq<Line>, out: seq<StoryGraph.Failure>, id: string,
        target: string)
    requires Plain(book) && Diagnoses(book, lines) && StoryGraph.Reports(ToStory(book), out)
    ensures (exists text :: Dangling(id, target, text) in lines)
          <==> StoryGraph.Failure(StoryGraph.DanglingTarget, id, target) in out
    ensures NoChoice(id) in lines <==> StoryGraph.Failure(StoryGraph.SinkNode, id, "") in out
    ensures Unreached(id) in lines <==> StoryGraph.Failure(StoryGraph.UnreachableNode, id, "") in out
  {
    DanglingAgrees(book, lines, out, id, target);
    SinkAgrees(book, lines, out, id);
    UnreachedAgrees(book, lines, out, id);
  }

  lemma {:induction false} StartPresent(book: Book)
    requires Plain(book)
    ensures ToStory(book).startNode in StoryGraph.GraphOf(ToStory(book)).node
  {
    GraphIds(book, book.startNode);
  }

  /** With the start present, a dangling or sink failure is reported exactly where there is one. */
  lemma {:induction false} LocalReported(book: Book, out: seq<StoryGraph.Failure>, f: StoryGraph.Failure)
    requires Plain(book) && StoryGraph.Reports(ToStory(book), out)
    requires f.kind == StoryGraph.DanglingTarget || f.kind == StoryGraph.SinkNode
    ensures f in out <==> StoryGraph.LocalDefect(StoryGraph.GraphOf(ToStory(book)), f)
  {
    hide StoryGraph.GraphOf, StoryGraph.Reports, StoryGraph.LocalDefect, ToStory;
    StoryGraph.ReportsExactlyTheDefects(ToStory(book), out, f);
    StartPresent(book);
  }

  lemma {:induction false} NoEmptyTarget(n: Node)
    ensures "" !in Stories.Targets(ToNode(n).choices)
  {
    hide Stories.Targets;
  }

  lemma {:induction false} DanglingIsDefect(book: Book, i: nat, l: Line)
    requires Plain(book) && i < |book.nodes| && l.Dangling? && LineOf(book.nodes[i], Ids(book.nodes), l)
    ensures StoryGraph.LocalDefect(StoryGraph.GraphOf(ToStory(book)), StoryGraph.Failure(StoryGraph.DanglingTarget, l.node, l.target))
  {
    hide StoryGraph.GraphOf, ToStory, Stories.Targets, ToNode, Ids;
    GraphHolds(book, i);
    GraphIds(book, l.target);
    TargetsAre(book.nodes[i], l.target);
  }

  lemma {:induction false} DefectIsDangling(book: Book, id: string, target: string) returns (i: nat, l: Line)
    requires Plain(book)
    requires StoryGraph.LocalDefect(StoryGraph.GraphOf(ToStory(book)), StoryGraph.Failure(StoryGraph.DanglingTarget, id, target))
    ensures i < |book.nodes| && l.Dangling? && l.node == id && l.target == target && LineOf(book.nodes[i], Ids(book.nodes), l)
  {
    GraphIds(book, id);
    GraphIds(book, target);
    hide StoryGraph.GraphOf, ToStory, Stories.Targets, ToNode, Ids;
    i := NodeAt(book, id);
    NoEmptyTarget(book.nodes[i]);
    hide Plain;
    TargetsAre(book.nodes[i], target);
    var k :| 0 <= k < |book.nodes[i].choices| && book.nodes[i].choices[k].target == target;
    l := Dangling(id, target, book.nodes[i].choices[k].text);
  }

  lemma {:induction false} DanglingAgrees(book: Book, lines: seq<Line>, out: seq<StoryGraph.Failure>, id: string, target: string)
    requires Plain(book) && Diagnoses(book, lines) && StoryGraph.Reports(ToStory(book), out)
    ensures (exists text :: Dangling(id, target, text) in lines)
          <==> StoryGraph.Failure(StoryGraph.DanglingTarget, id, target) in out
  {
    hide *;
    var f := StoryGraph.Failure(StoryGraph.DanglingTarget, id, target);
    LocalReported(book, out, f);
    if text :| Dangling(id, target, text) in lines {
      DiagnosesExactly(book, lines, Dangling(id, target, text));
      var i :| 0 <= i < |book.nodes| && LineOf(book.nodes[i], Ids(book.nodes), Dangling(id, target, text));
      DanglingIsDefect(book, i, Dangling(id, target, text));
    }
    if f in out {
      var i, l := DefectIsDangling(book, id, target);
      DiagnosesExactly(book, lines, l);
      assert Dangling(id, target, l.text) in lines;
    }
  }

  lemma {:induction false} SinkIsDefect(book: Book, i: nat)
    requires Plain(book) && i < |book.nodes|
    ensures LineOf(book.nodes[i], Ids(book.nodes), NoChoice(book.nodes[i].id))
       <==> StoryGraph.LocalDefect(StoryGraph.GraphOf(ToStory(book)), StoryGraph.Failure(StoryGraph.SinkNode, book.nodes[i].id, ""))
  {
    hide StoryGraph.GraphOf, ToStory, Stories.Targets, ToNode, Ids;
    GraphHolds(book, i);
    KeepsId(book.nodes[i]);
  }

  lemma {:induction false} LocalInBook(book: Book, f: StoryGraph.Failure)
    requires Plain(book) && StoryGraph.LocalDefect(StoryGraph.GraphOf(ToStory(book)), f)
    ensures f.node in Ids(book.nodes)
  {
    hide Ids, ToStory, Plain;
    GraphIds(book, f.node);
  }

  lemma {:induction false} SinkAgrees(book: Book, lines: seq<Line>, out: seq<StoryGraph.Failure>, id: string)
    requires Plain(book) && Diagnoses(book, lines) && StoryGraph.Reports(ToStory(book), out)
    ensures NoChoice(id) in lines <==> StoryGraph.Failure(StoryGraph.SinkNode, id, "") in out
  {
    LineNode();
    hide *;
    var f := StoryGraph.Failure(StoryGraph.SinkNode, id, "");
    LocalReported(book, out, f);
    DiagnosesExactly(book, lines, NoChoice(id));
    if NoChoice(id) in lines {
      var i :| 0 <= i < |book.nodes| && LineOf(book.nodes[i], Ids(book.nodes), NoChoice(id));
      SinkIsDefect(book, i);
    }
    if f in out {
      LocalInBook(book, f);
      var i := NodeAt(book, id);
      SinkIsDefect(book, i);
    }
  }

  lemma LineNode()
    ensures forall n, ids, l :: LineOf(n, ids, l) ==> l.node == n.id
  {
  }

  lemma {:induction false} UnreachedReported(book: Book, out: seq<StoryGraph.Failure>, id: string)
    requires Plain(book) && StoryGraph.Reports(ToStory(book), out)
    ensures var g := StoryGraph.GraphOf(ToStory(book));
            (StoryGraph.Failure(StoryGraph.UnreachableNode, id, "") in out
             <==> id in g.node && !StoryGraph.Reaches(g, book.startNode, id))
  {
    hide StoryGraph.GraphOf, StoryGraph.Reports, ToStory, StoryGraph.Reaches;
    StoryGraph.ReportsExactlyTheDefects(ToStory(book), out, StoryGraph.Failure(StoryGraph.UnreachableNode, id, ""));
    StartPresent(book);
    KeepsStart(book);
  }

  lemma {:induction false} UnreachedAgrees(book: Book, lines: seq<Line>, out: seq<StoryGraph.Failure>, id: string)
    requires Plain(book) && Diagnoses(book, lines) && StoryGraph.Reports(ToStory(book), out)
    ensures Unreached(id) in lines <==> StoryGraph.Failure(StoryGraph.UnreachableNode, id, "") in out
  {
    hide *;
    UnreachedReported(book, out, id);
    GraphIds(book, id);
    DiagnosesExactly(book, lines, Unreached(id));
    SameReach(book, book.startNode, id);
  }

  lemma {:induction false} KeepsStart(book: Book)
    ensures ToStory(book).startNode == book.startNode
  {
  }

  /** The compiler's diagnostics are empty exactly when the checker finds no dangling target,
      no sink and no unreachable node. */
  lemma {:induction false} DiagnosticsAgree(book: Book, lines: seq<Line>, out: seq<StoryGraph.Failure>)
    requires Plain(book) && Diagnoses(book, lines) && StoryGraph.Reports(ToStory(book), out)
    ensures lines == []
       <==> forall f :: f in out ==> f.kind !in {StoryGraph.DanglingTarget, StoryGraph.SinkNode, StoryGraph.UnreachableNode}
  {
    hide Plain, Diagnoses, StoryGraph.Reports, ToStory;
    if lines != [] {
      var l := lines[0];
      assert l in lines;
      LinesAreFailures(book, lines, out, l.node, if l.Dangling? then l.target else "");
    }
    if f :| f in out && f.kind in {StoryGraph.DanglingTarget, StoryGraph.SinkNode, StoryGraph.UnreachableNode} {
      FailureForm(book, out, f);
      LinesAreFailures(book, lines, out, f.node, f.detail);
    }
  }

  lemma {:induction false} FailureForm(book: Book, out: seq<StoryGraph.Failure>, f: StoryGraph.Failure)
    requires Plain(book) && StoryGraph.Reports(ToStory(book), out) && f in out
    ensures f.kind in {StoryGraph.SinkNode, StoryGraph.UnreachableNode} ==> f.detail == ""
  {
    StoryGraph.ReportsExactlyTheDefects(ToStory(book), out, f);
    hide StoryGraph.GraphOf, StoryGraph.Reports, ToStory, StoryGraph.Reaches, Plain;
  }
}
