/** The blinding of `scripts/blind_books.py`: a book rebuilt with fresh ids, and
    what the structural checker and a reader can still tell about it. */
module Blinding {
  import opened Collections
  import opened Digits
  import opened Stories
  import opened StoryGraph

  function FreshId(code: string, i: nat): string {
    code + "_" + Pad(Decimal(i), 3)
  }

  lemma {:induction false} FreshInjective(code: string, i: nat, j: nat)
    requires FreshId(code, i) == FreshId(code, j)
    ensures i == j
  {
    var p, a, b := code + "_", Pad(Decimal(i), 3), Pad(Decimal(j), 3);
    assert a == (p + a)[|p|..] && b == (p + b)[|p|..];
    PaddedInjective(i, j, 3);
  }

  /** A minted id is the code, an underscore and the position in at least three digits. */
  lemma {:induction false} FreshIdIs(code: string, i: nat)
    ensures var digits := Pad(Decimal(i), 3);
            && FreshId(code, i) == code + "_" + digits
            && AllDigits(digits) && Value(digits) == i && |digits| == if i < 1000 then 3 else |Decimal(i)|
  {
    ValueOfDecimal(i);
    DigitsOf(i);
  }

  lemma DigitsOf(i: nat)
    ensures |Decimal(i)| <= 3 <==> i < 1000
  {
    assert |Decimal(i)| == 1 || |Decimal(i)| == 1 + |Decimal(i / 10)|;
    assert i >= 10 ==> |Decimal(i / 10)| == 1 || |Decimal(i / 10)| == 1 + |Decimal(i / 10 / 10)|;
  }

  /** Old id to fresh id, in file order; a repeated id takes its last position. */
  function Names(nodes: seq<Node>, code: string): (names: map<string, string>)
    ensures forall id :: id in names <==> HasId(nodes, id)
  {
    if |nodes| == 0 then map[]
    else
      var m := |nodes| - 1;
      assert forall i :: 0 <= i < m ==> nodes[..m][i].id == nodes[i].id;
      Names(nodes[..m], code)[nodes[m].id := FreshId(code, m)]
  }

  lemma {:induction false} NameOfPosition(nodes: seq<Node>, code: string, i: nat)
    requires UniqueIds(nodes) && i < |nodes|
    ensures nodes[i].id in Names(nodes, code) && Names(nodes, code)[nodes[i].id] == FreshId(code, i)
  {
    assert HasId(nodes, nodes[i].id);
    if i < |nodes| - 1 {
      NameOfPosition(nodes[..|nodes| - 1], code, i);
    }
  }

  ghost predicate HasId(nodes: seq<Node>, id: string) {
    exists i :: 0 <= i < |nodes| && nodes[i].id == id
  }

  function Renamed(names: map<string, string>, id: string): string {
    if id in names then names[id] else id
  }

  function BlindChoice(names: map<string, string>, code: string, i: nat, j: nat, c: Choice): Choice {
    Choice(FreshId(code, i) + "_c" + Decimal(j), c.text, if c.target == "" then "" else Renamed(names, c.target))
  }

  function BlindNode(names: map<string, string>, code: string, i: nat, n: Node): Node
    requires n.id in names
  {
    Node(names[n.id], n.body, n.isEnding,
         seq(|n.choices|, j requires 0 <= j < |n.choices| => BlindChoice(names, code, i, j, n.choices[j])),
         if n.ending.Some? then Some(Ending(None, None, n.ending.value.title)) else None)
  }

  /** The blinded book; the story's own id and version are dropped. */
  function Blind(story: Story, code: string): Story {
    var names := Names(story.nodes, code);
    Story(None, None, story.title, Renamed(names, story.startNode),
          seq(|story.nodes|, i requires 0 <= i < |story.nodes| => BlindNode(names, code, i, story.nodes[i])))
  }

  /** Whatever the code, the empty one included, no blinded book has it for its id or its
      version: the fields are gone, and what they were leaves no trace. */
  lemma {:induction false} BlindDropsIdAndVersion(story: Story, code: string)
    ensures Blind(story, code).id != Some(code) && Blind(story, code).version != Some(code)
    ensures forall id, version :: Blind(story.(id := id, version := version), code) == Blind(story, code)
  {
  }

  method BlindChoices(names: map<string, string>, code: string, i: nat, node: Node) returns (choices: seq<Choice>)
    requires node.id in names
    ensures choices == BlindNode(names, code, i, node).choices
  {
    hide FreshId;
    choices := [];
    for j := 0 to |node.choices|
      invariant |choices| == j
      invariant forall k :: 0 <= k < j ==> choices[k] == BlindChoice(names, code, i, k, node.choices[k])
    {
      var choice := node.choices[j];
      var kept := choice.(id := FreshId(code, i) + "_c" + Decimal(j));
      if kept.target != "" {
        kept := kept.(target := Renamed(names, kept.target));
      }
      choices := choices + [kept];
    }
  }

  method BlindBook(story: Story, code: string) returns (blinded: Story)
    ensures blinded == Blind(story, code)
  {
    var names := Names(story.nodes, code);
    var nodes: seq<Node> := [];
    for i := 0 to |story.nodes|
      invariant |nodes| == i
      invariant forall k :: 0 <= k < i ==> nodes[k] == BlindNode(names, code, k, story.nodes[k])
    {
      var node := story.nodes[i];
      var choices := BlindChoices(names, code, i, node);
      var rebuilt := Node(names[node.id], node.body, node.isEnding, choices, None);
      if node.ending.Some? {
        rebuilt := rebuilt.(ending := Some(Ending(None, None, node.ending.value.title)));
      }
      nodes := nodes + [rebuilt];
    }
    blinded := Story(None, None, story.title, Renamed(names, story.startNode), nodes);
  }

  // ----- the renaming is a graph isomorphism -----

  ghost predicate UniqueIds(nodes: seq<Node>) {
    && (forall i :: 0 <= i < |nodes| ==> nodes[i].id != "")
    && forall i, j :: 0 <= i < j < |nodes| ==> nodes[i].id != nodes[j].id
  }

  ghost predicate IsFresh(story: Story, code: string, id: string) {
    exists i :: 0 <= i < |story.nodes| && id == FreshId(code, i)
  }

  /** No reference that dangles in the original resolves by accident afterwards. */
  ghost predicate NoCollision(story: Story, code: string) {
    if !HasId(story.nodes, story.startNode) then !IsFresh(story, code, story.startNode)
    else forall i, t :: 0 <= i < |story.nodes| && t in Targets(story.nodes[i].choices) && !HasId(story.nodes, t)
           ==> !IsFresh(story, code, t)
  }

  lemma {:induction false} UniqueGraph(nodes: seq<Node>)
    requires UniqueIds(nodes)
    ensures var g := Index(nodes);
            && (forall i :: 0 <= i < |nodes| ==> nodes[i].id in g.node && g.node[nodes[i].id] == nodes[i])
            && forall id :: id in g.node <==> HasId(nodes, id)
  {
    hide Index;
    forall i | 0 <= i < |nodes|
      ensures nodes[i].id in Index(nodes).node && Index(nodes).node[nodes[i].id] == nodes[i]
    {
      LastOneWins(nodes, i);
    }
  }

  /** Distinct old ids get distinct fresh ids. */
  lemma {:induction false} NamesInjective(nodes: seq<Node>, code: string, a: string, b: string)
    requires UniqueIds(nodes) && HasId(nodes, a) && HasId(nodes, b)
    requires Names(nodes, code)[a] == Names(nodes, code)[b]
    ensures a == b
  {
    var i :| 0 <= i < |nodes| && nodes[i].id == a;
    var j :| 0 <= j < |nodes| && nodes[j].id == b;
    NameOfPosition(nodes, code, i);
    NameOfPosition(nodes, code, j);
    FreshInjective(code, i, j);
  }

  lemma {:induction false} BlindNodes(story: Story, code: string)
    requires UniqueIds(story.nodes)
    ensures var nodes := Blind(story, code).nodes;
            && |nodes| == |story.nodes|
            && forall i :: 0 <= i < |nodes| ==> nodes[i].id == FreshId(code, i)
  {
    hide FreshId;
    forall i | 0 <= i < |story.nodes|
      ensures Blind(story, code).nodes[i].id == FreshId(code, i)
    {
      NameOfPosition(story.nodes, code, i);
    }
  }

  lemma {:induction false} BlindIdsUnique(story: Story, code: string)
    requires UniqueIds(story.nodes)
    ensures UniqueIds(Blind(story, code).nodes)
    ensures forall id :: HasId(Blind(story, code).nodes, id) <==> IsFresh(story, code, id)
  {
    var nodes := Blind(story, code).nodes;
    BlindNodes(story, code);
    forall i, j | 0 <= i < j < |nodes|
      ensures nodes[i].id != nodes[j].id
    {
      if nodes[i].id == nodes[j].id {
        FreshInjective(code, i, j);
      }
    }
    forall i | 0 <= i < |nodes|
      ensures nodes[i].id != ""
    {
      assert |FreshId(code, i)| > 0;
    }
    hide Blind, FreshId;
  }

  ghost predicate OneToOne(names: map<string, string>) {
    forall a, b :: a in names && b in names && names[a] == names[b] ==> a == b
  }

  ghost predicate Onto(names: map<string, string>, ids: set<string>) {
    forall x :: x in ids ==> exists n :: n in names && names[n] == x
  }

  ghost predicate PageMatches(g: Graph, h: Graph, names: map<string, string>, n: string)
    requires n in names && n in g.node
  {
    && names[n] in h.node
    && RenamedPage(g.node[n], h.node[names[n]], names)
    && forall t :: t in Targets(g.node[n].choices) ==> t in names || t !in h.node
  }

  /** `h` is `g` with every node renamed, and nothing that dangled in `g` resolves in `h`. */
  ghost predicate RenamedGraph(g: Graph, h: Graph, names: map<string, string>) {
    && names.Keys == g.node.Keys
    && OneToOne(names)
    && Onto(names, h.node.Keys)
    && forall n :: n in names ==> PageMatches(g, h, names, n)
  }

  ghost predicate RenamedPage(m: Node, n: Node, names: map<string, string>) {
    && n.isEnding == m.isEnding
    && |n.choices| == |m.choices|
    && forall i :: 0 <= i < |m.choices| ==>
         n.choices[i].target == if m.choices[i].target == "" then "" else Renamed(names, m.choices[i].target)
  }

  lemma {:induction false} RenamedTargets(m: Node, n: Node, names: map<string, string>, x: string)
    requires RenamedPage(m, n, names) && forall t :: t in names ==> names[t] != ""
    ensures x in Targets(n.choices) <==> exists t :: t in Targets(m.choices) && Renamed(names, t) == x
  {
    if x in Targets(n.choices) {
      var i :| 0 <= i < |n.choices| && n.choices[i].target == x;
      assert m.choices[i].target in Targets(m.choices);
    }
    if t :| t in Targets(m.choices) && Renamed(names, t) == x {
      var i :| 0 <= i < |m.choices| && m.choices[i].target == t;
      assert n.choices[i].target == x;
    }
  }

  lemma {:induction false} EdgeRenamed(g: Graph, h: Graph, names: map<string, string>, u: string, v: string)
    requires RenamedGraph(g, h, names) && h.Valid() && u in names && v in names
    ensures Edge(g, u, v) <==> Edge(h, names[u], names[v])
  {
    RenamedTargets(g.node[u], h.node[names[u]], names, names[v]);
    if Edge(g, u, v) {
      assert Renamed(names, v) == names[v];
    }
  }

  ghost function OldName(g: Graph, h: Graph, names: map<string, string>, x: string): (n: string)
    requires RenamedGraph(g, h, names) && x in h.node
    ensures n in names && names[n] == x
  {
    var n :| n in names && names[n] == x;
    n
  }

  lemma {:induction false} PathRenamed(g: Graph, h: Graph, names: map<string, string>, p: seq<string>) returns (q: seq<string>)
    requires RenamedGraph(g, h, names) && h.Valid() && Path(g, p)
    ensures p[0] in names && p[|p| - 1] in names
    ensures |p| == |q| > 0 && Path(h, q) && q[0] == names[p[0]] && q[|q| - 1] == names[p[|p| - 1]]
  {
    PathSplit(g, p);
    KeysMatch(g, h, names);
    var m := |p| - 1;
    assert PageMatches(g, h, names, p[m]);
    var last := names[p[m]];
    assert last in h.node;
    hide RenamedGraph, Path, Edge, PageMatches;
    if m == 0 {
      q := [last];
      PathSingle(h, last);
    } else {
      q := PathRenamed(g, h, names, p[..m]);
      EdgeRenamed(g, h, names, p[m - 1], p[m]);
      PathExtend(h, q, last);
      q := q + [last];
    }
  }

  lemma {:induction false} KeysMatch(g: Graph, h: Graph, names: map<string, string>)
    requires RenamedGraph(g, h, names)
    ensures names.Keys == g.node.Keys
  {
  }

  lemma {:induction false} PathRestored(g: Graph, h: Graph, names: map<string, string>, q: seq<string>) returns (p: seq<string>)
    requires RenamedGraph(g, h, names) && h.Valid() && Path(h, q)
    ensures |p| == |q| > 0 && Path(g, p)
    ensures p[0] in names && names[p[0]] == q[0]
    ensures p[|p| - 1] in names && names[p[|p| - 1]] == q[|q| - 1]
  {
    hide RenamedGraph, Path, Edge;
    PathSplit(h, q);
    var m := |q| - 1;
    var last := OldName(g, h, names, q[m]);
    KeysMatch(g, h, names);
    if m == 0 {
      p := [last];
      PathSingle(g, last);
    } else {
      p := PathRestored(g, h, names, q[..m]);
      EdgeRenamed(g, h, names, p[m - 1], last);
      PathExtend(g, p, last);
      p := p + [last];
    }
  }

  lemma {:induction false} SameOldName(g: Graph, h: Graph, names: map<string, string>, a: string, b: string)
    requires RenamedGraph(g, h, names) && a in names && b in names && names[a] == names[b]
    ensures a == b
  {
  }

  lemma {:induction false} PathEndsRenamed(g: Graph, h: Graph, names: map<string, string>, p: seq<string>, u: string, v: string)
    requires RenamedGraph(g, h, names) && h.Valid() && PathFrom(g, p, u, v) && u in names && v in names
    ensures Reaches(h, names[u], names[v])
  {
    hide Path, RenamedGraph;
    var q := PathRenamed(g, h, names, p);
    assert PathFrom(h, q, names[u], names[v]);
  }

  lemma {:induction false} PathEndsRestored(g: Graph, h: Graph, names: map<string, string>, q: seq<string>, u: string, v: string)
    requires RenamedGraph(g, h, names) && h.Valid() && u in names && v in names && PathFrom(h, q, names[u], names[v])
    ensures Reaches(g, u, v)
  {
    hide Path, RenamedGraph;
    var p := PathRestored(g, h, names, q);
    SameOldName(g, h, names, p[0], u);
    SameOldName(g, h, names, p[|p| - 1], v);
    assert PathFrom(g, p, u, v);
  }

  lemma {:induction false} ReachesRenamed(g: Graph, h: Graph, names: map<string, string>, u: string, v: string)
    requires RenamedGraph(g, h, names) && h.Valid() && u in names && v in names
    ensures Reaches(g, u, v) <==> Reaches(h, names[u], names[v])
  {
    hide RenamedGraph, PathFrom;
    if p :| PathFrom(g, p, u, v) {
      PathEndsRenamed(g, h, names, p, u, v);
    }
    if q :| PathFrom(h, q, names[u], names[v]) {
      PathEndsRestored(g, h, names, q, u, v);
    }
  }

  lemma {:induction false} CanEndRenamed(g: Graph, h: Graph, names: map<string, string>, u: string)
    requires RenamedGraph(g, h, names) && h.Valid() && u in names
    ensures CanEnd(g, u) <==> CanEnd(h, names[u])
  {
    if v :| v in g.node && g.node[v].isEnding && Reaches(g, u, v) {
      ReachesRenamed(g, h, names, u, v);
    }
    if x :| x in h.node && h.node[x].isEnding && Reaches(h, names[u], x) {
      ReachesRenamed(g, h, names, u, OldName(g, h, names, x));
    }
  }

  function RenameFailure(names: map<string, string>, f: Failure): Failure {
    f.(node := Renamed(names, f.node))
  }

  lemma {:induction false} BlindPage(story: Story, code: string, i: nat)
    requires UniqueIds(story.nodes) && i < |story.nodes|
    ensures var names, blinded := Names(story.nodes, code), Blind(story, code).nodes[i];
            && blinded.id == names[story.nodes[i].id] == FreshId(code, i)
            && RenamedPage(story.nodes[i], blinded, names)
  {
    hide FreshId;
    NameOfPosition(story.nodes, code, i);
  }

  /** Where a page of the original lands, and what its loose ends do there. */
  lemma {:induction false} BlindPageInGraph(story: Story, code: string, n: string)
    requires UniqueIds(story.nodes) && HasId(story.nodes, story.startNode) && NoCollision(story, code)
    requires HasId(story.nodes, n)
    ensures n in GraphOf(story).node
    ensures PageMatches(GraphOf(story), GraphOf(Blind(story, code)), Names(story.nodes, code), n)
  {
    UniqueGraph(story.nodes);
    BlindIdsUnique(story, code);
    UniqueGraph(Blind(story, code).nodes);
    var i :| 0 <= i < |story.nodes| && story.nodes[i].id == n;
    BlindPage(story, code, i);
    hide Index, FreshId, Names, Blind, RenamedPage;
  }

  lemma {:induction false} BlindOnto(story: Story, code: string)
    requires UniqueIds(story.nodes)
    ensures Onto(Names(story.nodes, code), GraphOf(Blind(story, code)).node.Keys)
  {
    BlindIdsUnique(story, code);
    UniqueGraph(Blind(story, code).nodes);
    hide Index, FreshId, Blind, Names;
    forall x | x in GraphOf(Blind(story, code)).node
      ensures exists n :: n in Names(story.nodes, code) && Names(story.nodes, code)[n] == x
    {
      var i :| 0 <= i < |story.nodes| && x == FreshId(code, i);
      NameOfPosition(story.nodes, code, i);
    }
  }

  lemma {:induction false} BlindOneToOne(story: Story, code: string)
    requires UniqueIds(story.nodes)
    ensures Names(story.nodes, code).Keys == GraphOf(story).node.Keys
    ensures OneToOne(Names(story.nodes, code))
  {
    var names := Names(story.nodes, code);
    UniqueGraph(story.nodes);
    hide Names, Index, FreshId;
    forall a, b | a in names && b in names && names[a] == names[b]
      ensures a == b
    {
      NamesInjective(story.nodes, code, a, b);
    }
  }

  /** Blinding renames the graph, one page for one page. */
  lemma {:induction false} BlindGraph(story: Story, code: string)
    requires UniqueIds(story.nodes) && HasId(story.nodes, story.startNode) && NoCollision(story, code)
    ensures RenamedGraph(GraphOf(story), GraphOf(Blind(story, code)), Names(story.nodes, code))
  {
    BlindOneToOne(story, code);
    BlindOnto(story, code);
    hide Index, FreshId, Blind, PageMatches, NoCollision, Names, OneToOne, Onto, HasId, UniqueIds, GraphOf;
    var names := Names(story.nodes, code);
    forall n | n in names
      ensures PageMatches(GraphOf(story), GraphOf(Blind(story, code)), names, n)
    {
      BlindPageInGraph(story, code, n);
    }
  }

  // ----- the checker's verdict survives blinding -----

  lemma {:induction false} LocalDefectRenamed(g: Graph, h: Graph, names: map<string, string>, f: Failure)
    requires RenamedGraph(g, h, names) && h.Valid() && f.node in names
    ensures LocalDefect(g, f) <==> LocalDefect(h, RenameFailure(names, f))
  {
    var n := f.node;
    assert PageMatches(g, h, names, n);
    hide RenamedGraph, Index;
    assert LocalDefect(g, f) && f.kind == DanglingTarget ==> f.detail !in names;
    RenamedTargets(g.node[n], h.node[names[n]], names, f.detail);
  }

  lemma {:induction false} PageDefectRenamed(g: Graph, h: Graph, names: map<string, string>, start: string, f: Failure)
    requires RenamedGraph(g, h, names) && h.Valid() && start in names && f.node in names
    ensures PageDefect(g, start, f) <==> PageDefect(h, names[start], RenameFailure(names, f))
  {
    LocalDefectRenamed(g, h, names, f);
    ReachesRenamed(g, h, names, start, f.node);
    CanEndRenamed(g, h, names, f.node);
    assert PageMatches(g, h, names, f.node);
    assert f.node in g.node;
    hide RenamedGraph, LocalDefect, Reaches, CanEnd, RenamedPage;
  }

  /** The original's and the blinded book's defects, when the start exists. */
  lemma {:induction false} DefectRenamed(story: Story, code: string, f: Failure)
    requires UniqueIds(story.nodes) && HasId(story.nodes, story.startNode) && NoCollision(story, code)
    requires HasId(story.nodes, f.node)
    ensures Defect(story, f) <==> Defect(Blind(story, code), RenameFailure(Names(story.nodes, code), f))
  {
    var g, h, names := GraphOf(story), GraphOf(Blind(story, code)), Names(story.nodes, code);
    BlindGraph(story, code);
    assert PageMatches(g, h, names, story.startNode);
    PageDefectRenamed(g, h, names, story.startNode, f);
    hide RenamedGraph, Index, PageDefect, Names;
  }

  /** The blinded report is the original report with every node renamed. */
  ghost predicate SameReport(names: map<string, string>, out: seq<Failure>, blindOut: seq<Failure>) {
    forall x :: x in blindOut <==> exists f :: f in out && RenameFailure(names, f) == x
  }

  lemma {:induction false} DefectHasNode(story: Story, f: Failure)
    requires UniqueIds(story.nodes) && HasId(story.nodes, story.startNode) && Defect(story, f)
    ensures HasId(story.nodes, f.node)
  {
    UniqueGraph(story.nodes);
    hide Index, Reaches, CanEnd;
  }

  lemma {:induction false} BlindStart(story: Story, code: string)
    requires UniqueIds(story.nodes)
    ensures var b := Blind(story, code);
            && (HasId(story.nodes, story.startNode) ==> HasId(b.nodes, b.startNode))
            && (!HasId(story.nodes, story.startNode) ==> b.startNode == story.startNode)
  {
    BlindIdsUnique(story, code);
    hide FreshId;
    if i :| 0 <= i < |story.nodes| && story.nodes[i].id == story.startNode {
      NameOfPosition(story.nodes, code, i);
      assert IsFresh(story, code, Blind(story, code).startNode);
    }
  }

  /** Blinding changes neither which defects the checker reports nor where: not one
      is gained, lost or moved to another page. */
  lemma {:induction false} BlindKeepsReport(story: Story, code: string, out: seq<Failure>, blindOut: seq<Failure>)
    requires UniqueIds(story.nodes) && NoCollision(story, code)
    requires Reports(story, out) && Reports(Blind(story, code), blindOut)
    ensures SameReport(Names(story.nodes, code), out, blindOut)
  {
    var names := Names(story.nodes, code);
    hide Reports, NoCollision, Names, HasId, UniqueIds, RenameFailure, Blind;
    forall x
      ensures x in blindOut <==> exists f :: f in out && RenameFailure(names, f) == x
    {
      if HasId(story.nodes, story.startNode) {
        KeptWithStart(story, code, out, blindOut, x);
      } else {
        KeptWithoutStart(story, code, out, blindOut, x);
      }
    }
  }

  lemma {:induction false} KeptWithStart(story: Story, code: string, out: seq<Failure>, blindOut: seq<Failure>, x: Failure)
    requires UniqueIds(story.nodes) && NoCollision(story, code) && HasId(story.nodes, story.startNode)
    requires Reports(story, out) && Reports(Blind(story, code), blindOut)
    ensures x in blindOut <==> exists f :: f in out && RenameFailure(Names(story.nodes, code), f) == x
  {
    var b, names := Blind(story, code), Names(story.nodes, code);
    BlindIdsUnique(story, code);
    BlindStart(story, code);
    hide Reports, Defect, Blind, FreshId, Names;
    ReportsExactlyTheDefects(b, blindOut, x);
    if x in blindOut {
      DefectHasNode(b, x);
      var i :| 0 <= i < |story.nodes| && x.node == FreshId(code, i);
      NameOfPosition(story.nodes, code, i);
      var f := x.(node := story.nodes[i].id);
      DefectRenamed(story, code, f);
      ReportsExactlyTheDefects(story, out, f);
      assert RenameFailure(names, f) == x;
    }
    if f :| f in out && RenameFailure(names, f) == x {
      ReportsExactlyTheDefects(story, out, f);
      DefectHasNode(story, f);
      DefectRenamed(story, code, f);
    }
  }

  lemma {:induction false} MissingStart(story: Story, out: seq<Failure>)
    requires UniqueIds(story.nodes) && !HasId(story.nodes, story.startNode) && Reports(story, out)
    ensures out == [Failure(StartMissing, story.startNode, "")]
  {
    UniqueGraph(story.nodes);
    hide Index;
  }

  lemma {:induction false} KeptWithoutStart(story: Story, code: string, out: seq<Failure>, blindOut: seq<Failure>, x: Failure)
    requires UniqueIds(story.nodes) && NoCollision(story, code) && !HasId(story.nodes, story.startNode)
    requires Reports(story, out) && Reports(Blind(story, code), blindOut)
    ensures x in blindOut <==> exists f :: f in out && RenameFailure(Names(story.nodes, code), f) == x
  {
    var missing := Failure(StartMissing, story.startNode, "");
    BlindIdsUnique(story, code);
    BlindStart(story, code);
    MissingStart(story, out);
    MissingStart(Blind(story, code), blindOut);
    assert RenameFailure(Names(story.nodes, code), missing) == missing;
    hide Blind, FreshId, Names, Reports;
    assert out[0] == missing;
  }

  lemma {:induction false} LooseEnd(story: Story, i: nat, t: string)
    requires UniqueIds(story.nodes) && HasId(story.nodes, story.startNode) && i < |story.nodes|
    requires t in Targets(story.nodes[i].choices) && !HasId(story.nodes, t)
    ensures Defect(story, Failure(DanglingTarget, story.nodes[i].id, t))
  {
    UniqueGraph(story.nodes);
    hide Index, Reaches, CanEnd;
  }

  lemma {:induction false} NoLooseEnd(story: Story, f: Failure)
    requires UniqueIds(story.nodes) && HasId(story.nodes, story.startNode)
    requires f.kind == DanglingTarget && HasId(story.nodes, f.detail)
    ensures !Defect(story, f)
  {
    UniqueGraph(story.nodes);
    hide Index, Reaches, CanEnd;
  }

  /** A loose end of a page that happens to be named like a fresh id. */
  lemma {:induction false} LostLink(story: Story, code: string, i: nat, t: string)
    requires UniqueIds(story.nodes) && HasId(story.nodes, story.startNode) && i < |story.nodes|
    requires t in Targets(story.nodes[i].choices) && !HasId(story.nodes, t) && IsFresh(story, code, t)
    ensures var f := Failure(DanglingTarget, story.nodes[i].id, t);
            && Defect(story, f)
            && !Defect(Blind(story, code), RenameFailure(Names(story.nodes, code), f))
  {
    LooseEnd(story, i, t);
    BlindIdsUnique(story, code);
    BlindStart(story, code);
    hide Defect, Blind, FreshId, Names, HasId, IsFresh;
    NoLooseEnd(Blind(story, code), RenameFailure(Names(story.nodes, code), Failure(DanglingTarget, story.nodes[i].id, t)));
  }

  lemma {:induction false} LostStart(story: Story, code: string)
    requires UniqueIds(story.nodes) && !HasId(story.nodes, story.startNode) && IsFresh(story, code, story.startNode)
    ensures var f := Failure(StartMissing, story.startNode, "");
            && Defect(story, f)
            && !Defect(Blind(story, code), RenameFailure(Names(story.nodes, code), f))
  {
    UniqueGraph(story.nodes);
    BlindIdsUnique(story, code);
    UniqueGraph(Blind(story, code).nodes);
    BlindStart(story, code);
    hide Index, Blind, FreshId, Names, Reaches, CanEnd;
  }

  /** The condition is exact: a loose reference that equals a fresh id is repaired
      by accident, and its defect disappears from the blinded report. */
  lemma {:induction false} CollisionLosesDefect(story: Story, code: string, out: seq<Failure>, blindOut: seq<Failure>)
    requires UniqueIds(story.nodes) && !NoCollision(story, code)
    requires Reports(story, out) && Reports(Blind(story, code), blindOut)
    ensures !SameReport(Names(story.nodes, code), out, blindOut)
  {
    var names := Names(story.nodes, code);
    var f: Failure;
    if HasId(story.nodes, story.startNode) {
      var i, t :| 0 <= i < |story.nodes| && t in Targets(story.nodes[i].choices) && !HasId(story.nodes, t)
            && IsFresh(story, code, t);
      f := Failure(DanglingTarget, story.nodes[i].id, t);
      LostLink(story, code, i, t);
    } else {
      f := Failure(StartMissing, story.startNode, "");
      LostStart(story, code);
    }
    hide Reports, Defect, Blind, FreshId, Names;
    ReportsExactlyTheDefects(story, out, f);
    ReportsExactlyTheDefects(Blind(story, code), blindOut, RenameFailure(names, f));
    assert f in out && RenameFailure(names, f) !in blindOut;
  }

  // ----- what blinding hides -----

  ghost predicate SameReference(one: seq<Node>, two: seq<Node>, a: string, b: string) {
    (a == "" && b == "") || exists k :: 0 <= k < |one| && k < |two| && one[k].id == a && two[k].id == b
  }

  ghost predicate SamePage(one: seq<Node>, two: seq<Node>, m: Node, n: Node) {
    && m.body == n.body && m.isEnding == n.isEnding
    && |m.choices| == |n.choices|
    && (forall j :: 0 <= j < |m.choices| ==>
         && m.choices[j].text == n.choices[j].text
         && SameReference(one, two, m.choices[j].target, n.choices[j].target))
    && m.ending.Some? == n.ending.Some?
    && (m.ending.Some? ==> m.ending.value.title == n.ending.value.title)
  }

  /** Two books a reader cannot tell apart: same words and same links, whatever
      the ids, versions, choice ids and ending records behind them. */
  ghost predicate SameReading(one: Story, two: Story) {
    && one.title == two.title
    && |one.nodes| == |two.nodes|
    && UniqueIds(one.nodes) && UniqueIds(two.nodes)
    && SameReference(one.nodes, two.nodes, one.startNode, two.startNode)
    && forall i :: 0 <= i < |one.nodes| ==> SamePage(one.nodes, two.nodes, one.nodes[i], two.nodes[i])
  }

  lemma {:induction false} SameReferenceRenamed(one: seq<Node>, two: seq<Node>, code: string, a: string, b: string)
    requires UniqueIds(one) && UniqueIds(two) && SameReference(one, two, a, b)
    ensures Renamed(Names(one, code), a) == Renamed(Names(two, code), b)
    ensures a == "" <==> b == ""
  {
    if k :| 0 <= k < |one| && k < |two| && one[k].id == a && two[k].id == b {
      NameOfPosition(one, code, k);
      NameOfPosition(two, code, k);
    }
  }

  /** Blinding keeps nothing but the reading: such books get identical handouts. */
  lemma {:induction false} BlindForgetsProvenance(one: Story, two: Story, code: string)
    requires SameReading(one, two)
    ensures Blind(one, code) == Blind(two, code)
  {
    SameReferenceRenamed(one.nodes, two.nodes, code, one.startNode, two.startNode);
    forall i | 0 <= i < |one.nodes|
      ensures Blind(one, code).nodes[i] == Blind(two, code).nodes[i]
    {
      SamePageBlinded(one, two, code, i);
    }
    assert Blind(one, code).nodes == Blind(two, code).nodes;
  }

  lemma {:induction false} SamePageBlinded(one: Story, two: Story, code: string, i: nat)
    requires SameReading(one, two) && i < |one.nodes|
    ensures Blind(one, code).nodes[i] == Blind(two, code).nodes[i]
  {
    var m, n := one.nodes[i], two.nodes[i];
    NameOfPosition(one.nodes, code, i);
    NameOfPosition(two.nodes, code, i);
    hide FreshId, Names;
    forall j | 0 <= j < |m.choices|
      ensures BlindChoice(Names(one.nodes, code), code, i, j, m.choices[j])
           == BlindChoice(Names(two.nodes, code), code, i, j, n.choices[j])
    {
      SameReferenceRenamed(one.nodes, two.nodes, code, m.choices[j].target, n.choices[j].target);
    }
    assert Blind(one, code).nodes[i].choices == Blind(two, code).nodes[i].choices;
  }

  /** The start and every target a reader can follow is the id of a node. */
  ghost predicate Closed(story: Story) {
    && HasId(story.nodes, story.startNode)
    && forall i, j :: 0 <= i < |story.nodes| && 0 <= j < |story.nodes[i].choices| ==>
         story.nodes[i].choices[j].target == "" || HasId(story.nodes, story.nodes[i].choices[j].target)
  }

  lemma {:induction false} ReferenceKept(nodes: seq<Node>, blinded: seq<Node>, code: string, a: string)
    requires UniqueIds(nodes) && |blinded| == |nodes| && HasId(nodes, a)
    requires forall i :: 0 <= i < |nodes| ==> blinded[i].id == FreshId(code, i)
    ensures SameReference(nodes, blinded, a, Renamed(Names(nodes, code), a))
  {
    var k :| 0 <= k < |nodes| && nodes[k].id == a;
    NameOfPosition(nodes, code, k);
    hide FreshId;
    assert blinded[k].id == Renamed(Names(nodes, code), a);
  }

  lemma {:induction false} BlindIdAt(story: Story, code: string, i: nat)
    requires UniqueIds(story.nodes) && i < |story.nodes|
    ensures Blind(story, code).nodes[i].id == FreshId(code, i)
  {
    NameOfPosition(story.nodes, code, i);
    hide FreshId, Names;
  }

  lemma {:induction false} PageKept(story: Story, code: string, i: nat)
    requires UniqueIds(story.nodes) && Closed(story) && i < |story.nodes|
    ensures SamePage(story.nodes, Blind(story, code).nodes, story.nodes[i], Blind(story, code).nodes[i])
  {
    var blinded := Blind(story, code).nodes;
    forall k | 0 <= k < |story.nodes|
      ensures blinded[k].id == FreshId(code, k)
    {
      BlindIdAt(story, code, k);
    }
    var page := story.nodes[i];
    forall j | 0 <= j < |page.choices|
      ensures SameReference(story.nodes, blinded, page.choices[j].target, blinded[i].choices[j].target)
    {
      hide SameReference, FreshId, Names;
      if page.choices[j].target == "" {
        BothEmpty(story.nodes, blinded);
      } else {
        ReferenceKept(story.nodes, blinded, code, page.choices[j].target);
      }
    }
    hide SameReference, FreshId, Names, Renamed;
  }

  lemma {:induction false} BothEmpty(one: seq<Node>, two: seq<Node>)
    ensures SameReference(one, two, "", "")
  {
  }

  /** A handout reads as the book does: title, bodies, labels, endings and their titles stay,
      and every link leads to the page it led to. */
  lemma {:induction false} BlindKeepsTheReading(story: Story, code: string)
    requires UniqueIds(story.nodes) && Closed(story)
    ensures SameReading(story, Blind(story, code))
  {
    var blinded := Blind(story, code).nodes;
    BlindIdsUnique(story, code);
    forall k | 0 <= k < |story.nodes|
      ensures blinded[k].id == FreshId(code, k)
      ensures SamePage(story.nodes, blinded, story.nodes[k], blinded[k])
    {
      BlindIdAt(story, code, k);
      PageKept(story, code, k);
    }
    ReferenceKept(story.nodes, blinded, code, story.startNode);
    hide SameReference, SamePage, FreshId, Names, HasId;
  }

  lemma {:induction false} SamePlace(one: seq<Node>, two: seq<Node>, hand: seq<Node>, a: string, b: string, c: string)
    requires UniqueIds(hand) && SameReference(one, hand, a, c) && SameReference(two, hand, b, c)
    ensures SameReference(one, two, a, b)
  {
    if c != "" {
      var k :| 0 <= k < |one| && k < |hand| && one[k].id == a && hand[k].id == c;
      var l :| 0 <= l < |two| && l < |hand| && two[l].id == b && hand[l].id == c;
      assert k == l;
    }
  }

  lemma {:induction false} SamePageAgain(one: seq<Node>, two: seq<Node>, hand: seq<Node>, m: Node, n: Node, h: Node)
    requires UniqueIds(hand) && SamePage(one, hand, m, h) && SamePage(two, hand, n, h)
    ensures SamePage(one, two, m, n)
  {
    hide SameReference, UniqueIds;
    forall j | 0 <= j < |m.choices|
      ensures SameReference(one, two, m.choices[j].target, n.choices[j].target)
    {
      SamePlace(one, two, hand, m.choices[j].target, n.choices[j].target, h.choices[j].target);
    }
  }

  /** Two closed books get the same handout exactly when they read the same. */
  lemma {:induction false} SameHandoutIff(one: Story, two: Story, code: string)
    requires UniqueIds(one.nodes) && Closed(one)
    requires UniqueIds(two.nodes) && Closed(two)
    ensures Blind(one, code) == Blind(two, code) <==> SameReading(one, two)
  {
    if Blind(one, code) == Blind(two, code) {
      var hand := Blind(one, code);
      BlindKeepsTheReading(one, code);
      BlindKeepsTheReading(two, code);
      hide SameReference, SamePage, Blind, Closed, UniqueIds;
      SamePlace(one.nodes, two.nodes, hand.nodes, one.startNode, two.startNode, hand.startNode);
      forall i | 0 <= i < |one.nodes|
        ensures SamePage(one.nodes, two.nodes, one.nodes[i], two.nodes[i])
      {
        SamePageAgain(one.nodes, two.nodes, hand.nodes, one.nodes[i], two.nodes[i], hand.nodes[i]);
      }
    }
    if SameReading(one, two) {
      BlindForgetsProvenance(one, two, code);
    }
  }

  /** No two choices of a handout share an id. */
  lemma {:induction false} BlindChoiceIdsAreUnique(story: Story, code: string, i: nat, j: nat, k: nat, l: nat)
    requires i < |story.nodes| && j < |story.nodes[i].choices| && k < |story.nodes| && l < |story.nodes[k].choices|
    requires i != k || j != l
    ensures Blind(story, code).nodes[i].choices[j].id != Blind(story, code).nodes[k].choices[l].id
  {
    hide FreshId, Names;
    if Blind(story, code).nodes[i].choices[j].id == Blind(story, code).nodes[k].choices[l].id {
      ChoiceIdNamesItsPlace(code, i, j, k, l);
    }
  }

  lemma {:induction false} ChoiceIdNamesItsPlace(code: string, i: nat, j: nat, k: nat, l: nat)
    requires FreshId(code, i) + "_c" + Decimal(j) == FreshId(code, k) + "_c" + Decimal(l)
    ensures i == k && j == l
  {
    var a, b := Pad(Decimal(i), 3) + "_c" + Decimal(j), Pad(Decimal(k), 3) + "_c" + Decimal(l);
    var head := code + "_";
    assert FreshId(code, i) + "_c" + Decimal(j) == head + a && FreshId(code, k) + "_c" + Decimal(l) == head + b;
    assert a == (head + a)[|head|..] && b == (head + b)[|head|..];
    hide Decimal, Pad;
    DigitsThenMark(Pad(Decimal(i), 3), Decimal(j), Pad(Decimal(k), 3), Decimal(l));
    ValueOfDecimal(j);
    ValueOfDecimal(l);
    PaddedInjective(i, k, 3);
  }

  lemma {:induction false} DigitsThenMark(p: string, s: string, q: string, t: string)
    requires AllDigits(p) && AllDigits(q) && p + "_c" + s == q + "_c" + t
    ensures p == q && s == t
  {
    var w := p + "_c" + s;
    assert w[|p|] == '_' && w[|q|] == '_';
    assert (forall k :: 0 <= k < |p| ==> w[k] == p[k]) && forall k :: 0 <= k < |q| ==> w[k] == q[k];
    assert w[..|p|] == p && w[..|q|] == q && w[|p| + 2..] == s && w[|q| + 2..] == t;
  }
}
