/** The order Python's `sorted` puts on strings, and ascending enumerations of sets. */
module StringOrder {

  predicate Before(a: string, b: string) {
    if |b| == 0 then false
    else if |a| == 0 then true
    else if a[0] != b[0] then a[0] < b[0]
    else Before(a[1..], b[1..])
  }

  lemma {:induction false} BeforeTotal(a: string, b: string)
    ensures a == b || Before(a, b) || Before(b, a)
    ensures !(Before(a, b) && Before(b, a)) && !Before(a, a)
  {
    if |a| > 0 && |b| > 0 {
      BeforeTotal(a[1..], b[1..]);
      BeforeTotal(a[1..], a[1..]);
      assert a == [a[0]] + a[1..] && b == [b[0]] + b[1..];
    } else if |a| > 0 {
      BeforeTotal(a[1..], a[1..]);
    }
  }

  lemma {:induction false} BeforeTransitive(a: string, b: string, c: string)
    requires Before(a, b) && Before(b, c)
    ensures Before(a, c)
  {
    if |a| > 0 && a[0] == b[0] == c[0] {
      BeforeTransitive(a[1..], b[1..], c[1..]);
    }
  }

  /** At the first place where they differ, the earlier text ends or has the smaller character. */
  lemma {:induction false} BeforeIff(a: string, b: string)
    ensures Before(a, b) <==> exists k :: 0 <= k <= |a| && k < |b| && a[..k] == b[..k] && (k == |a| || a[k] < b[k])
  {
    if |b| > 0 && |a| > 0 && a[0] == b[0] {
      BeforeIff(a[1..], b[1..]);
      if k :| 0 <= k <= |a[1..]| && k < |b[1..]| && a[1..][..k] == b[1..][..k] && (k == |a[1..]| || a[1..][k] < b[1..][k]) {
        assert a[..k + 1] == [a[0]] + a[1..][..k] && b[..k + 1] == [b[0]] + b[1..][..k];
      }
      if k :| 0 <= k <= |a| && k < |b| && a[..k] == b[..k] && (k == |a| || a[k] < b[k]) {
        assert k > 0;
        assert a[1..][..k - 1] == a[..k][1..] && b[1..][..k - 1] == b[..k][1..];
      }
    } else {
      assert a[..0] == b[..0];
      if k :| 0 < k <= |a| && k < |b| && a[..k] == b[..k] {
        assert a[..k][0] == b[..k][0];
      }
    }
  }

  ghost predicate Ascending(q: seq<string>) {
    forall i, j :: 0 <= i < j < |q| ==> Before(q[i], q[j])
  }

  /** `q` lists exactly the members of `s`, in ascending order. */
  ghost predicate Lists(q: seq<string>, s: set<string>) {
    Ascending(q) && forall x :: x in q <==> x in s
  }

  method Insert(q: seq<string>, x: string) returns (r: seq<string>)
    requires Ascending(q) && x !in q
    ensures Ascending(r) && forall y :: y in r <==> y in q || y == x
  {
    var k := 0;
    while k < |q| && Before(q[k], x)
      invariant k <= |q|
      invariant forall i :: 0 <= i < k ==> Before(q[i], x)
    {
      k := k + 1;
    }
    r := q[..k] + [x] + q[k..];
    forall j | k <= j < |q|
      ensures Before(x, q[j])
    {
      BeforeTotal(q[k], x);
      if k < j {
        BeforeTransitive(x, q[k], q[j]);
      }
    }
  }

  method Sorted(s: set<string>) returns (q: seq<string>)
    ensures Lists(q, s)
  {
    q := [];
    var rest := s;
    while rest != {}
      invariant rest <= s && Ascending(q)
      invariant forall x :: x in q <==> x in s - rest
    {
      var x :| x in rest;
      q := Insert(q, x);
      rest := rest - {x};
    }
  }
}

/** A story document, with the fields that `scripts/check_graph_structure.py` and
    `scripts/blind_books.py` read. An absent choice target is the empty string; a book and
    an ending may lack the fields that blinding drops. */
module Stories {
  import opened Collections

  datatype Choice = Choice(id: string, text: string, target: string)
  datatype Ending = Ending(id: Option<string>, kind: Option<string>, title: string)
  datatype Node = Node(id: string, body: string, isEnding: bool, choices: seq<Choice>, ending: Option<Ending>)
  datatype Story = Story(
    id: Option<string>, version: Option<string>, title: string, startNode: string, nodes: seq<Node>)

  /** The targets a reader can follow, in choice order. */
  function Targets(choices: seq<Choice>): (targets: seq<string>)
    ensures forall t :: t in targets <==> t != "" && exists i :: 0 <= i < |choices| && choices[i].target == t
  {
    if |choices| == 0 then []
    else
      var c := choices[|choices| - 1];
      assert choices == choices[..|choices| - 1] + [c];
      Targets(choices[..|choices| - 1]) + if c.target == "" then [] else [c.target]
  }
}

/** The structural checker of `scripts/check_graph_structure.py`. */
module StoryGraph {
  import opened Collections
  import opened StringOrder
  import opened Stories

  datatype Kind =
    | StartMissing
    | EndingWithChoices
    | SinkNode
    | DanglingTarget
    | UnreachableNode
    | NoEndingReachable

  /** `detail` is the dangling target, and empty for every other kind. */
  datatype Failure = Failure(kind: Kind, node: string, detail: string)

  /** A dictionary in insertion order: a repeated key keeps its place and takes the new value. */
  datatype Graph = Graph(order: seq<string>, node: map<string, Node>) {
    ghost predicate Valid() {
      && (forall i, j :: 0 <= i < j < |order| ==> order[i] != order[j])
      && (forall n :: n in order <==> n in node)
      && "" !in node
    }
  }

  function Index(nodes: seq<Node>): (g: Graph)
    ensures g.Valid()
    ensures forall n :: n in g.node ==> g.node[n] in nodes && g.node[n].id == n
    ensures forall n :: n in nodes && n.id != "" ==> n.id in g.node
  {
    if |nodes| == 0 then Graph([], map[])
    else
      var g, n := Index(nodes[..|nodes| - 1]), nodes[|nodes| - 1];
      assert nodes == nodes[..|nodes| - 1] + [n];
      if n.id == "" then g
      else Graph(if n.id in g.node then g.order else g.order + [n.id], g.node[n.id := n])
  }

  lemma {:induction false} IndexStep(nodes: seq<Node>)
    requires |nodes| > 0
    ensures var before, n := Index(nodes[..|nodes| - 1]).node, nodes[|nodes| - 1];
            Index(nodes).node == if n.id == "" then before else before[n.id := n]
  {
  }

  /** The last node that carries an id is the one the graph keeps. */
  lemma {:induction false} LastOneWins(nodes: seq<Node>, i: nat)
    requires i < |nodes| && nodes[i].id != "" && forall j :: i < j < |nodes| ==> nodes[j].id != nodes[i].id
    ensures nodes[i].id in Index(nodes).node && Index(nodes).node[nodes[i].id] == nodes[i]
  {
    hide Index;
    var m := |nodes| - 1;
    IndexStep(nodes);
    if i < m {
      LastOneWins(nodes[..m], i);
    }
  }

  function GraphOf(story: Story): (g: Graph)
    ensures g.Valid()
  {
    Index(story.nodes)
  }

  // ----- paths -----

  ghost predicate Edge(g: Graph, u: string, v: string) {
    u in g.node && v in g.node && v in Targets(g.node[u].choices)
  }

  ghost predicate Path(g: Graph, p: seq<string>) {
    && |p| > 0
    && p[0] in g.node
    && forall i :: 0 < i < |p| ==> Edge(g, p[i - 1], p[i])
  }

  ghost predicate PathFrom(g: Graph, p: seq<string>, u: string, v: string) {
    Path(g, p) && p[0] == u && p[|p| - 1] == v
  }

  ghost predicate Reaches(g: Graph, u: string, v: string) {
    exists p :: PathFrom(g, p, u, v)
  }

  ghost predicate CanEnd(g: Graph, u: string) {
    exists v :: v in g.node && g.node[v].isEnding && Reaches(g, u, v)
  }

  ghost function Unreachable(g: Graph, start: string): set<string> {
    set n | n in g.node && !Reaches(g, start, n)
  }

  ghost function Trapped(g: Graph, start: string): set<string> {
    set n | n in g.node && Reaches(g, start, n) && !CanEnd(g, n)
  }

  lemma {:induction false} PathNodes(g: Graph, p: seq<string>)
    requires Path(g, p)
    ensures forall i :: 0 <= i < |p| ==> p[i] in g.node
  {
    forall i | 0 <= i < |p|
      ensures p[i] in g.node
    {
      if i > 0 {
        assert Edge(g, p[i - 1], p[i]);
      }
    }
  }

  lemma {:induction false} PathSplit(g: Graph, p: seq<string>)
    requires Path(g, p)
    ensures |p| > 0 && p[0] in g.node && p[|p| - 1] in g.node
    ensures |p| > 1 ==> Path(g, p[..|p| - 1]) && Edge(g, p[|p| - 2], p[|p| - 1])
  {
    PathNodes(g, p);
  }

  lemma {:induction false} PathExtend(g: Graph, p: seq<string>, v: string)
    requires Path(g, p) && Edge(g, p[|p| - 1], v)
    ensures Path(g, p + [v])
  {
  }

  lemma {:induction false} PathSingle(g: Graph, v: string)
    requires v in g.node
    ensures Path(g, [v])
  {
  }

  lemma {:induction false} ReachesSelf(g: Graph, u: string)
    requires u in g.node
    ensures Reaches(g, u, u)
  {
    assert PathFrom(g, [u], u, u);
  }

  lemma {:induction false} ReachesStep(g: Graph, u: string, v: string, w: string)
    requires Reaches(g, u, v) && Edge(g, v, w)
    ensures Reaches(g, u, w)
  {
    var p :| PathFrom(g, p, u, v);
    assert PathFrom(g, p + [w], u, w);
  }

  lemma {:induction false} StepReaches(g: Graph, u: string, v: string, w: string)
    requires Edge(g, u, v) && Reaches(g, v, w)
    ensures Reaches(g, u, w)
  {
    var p :| PathFrom(g, p, v, w);
    var q := [u] + p;
    forall i | 0 < i < |q|
      ensures Edge(g, q[i - 1], q[i])
    {
      if i > 1 {
        assert Edge(g, p[i - 2], p[i - 1]);
      }
    }
    assert PathFrom(g, q, u, w);
  }

  // ----- the node-by-node defects -----

  function Dangling(g: Graph, id: string, targets: seq<string>): seq<Failure> {
    if |targets| == 0 then []
    else
      var t := targets[|targets| - 1];
      Dangling(g, id, targets[..|targets| - 1]) + if t in g.node then [] else [Failure(DanglingTarget, id, t)]
  }

  function NodeFailures(g: Graph, id: string): seq<Failure>
    requires id in g.node
  {
    var n := g.node[id];
    (if n.isEnding && |n.choices| > 0 then [Failure(EndingWithChoices, id, "")] else [])
    + (if !n.isEnding && |n.choices| == 0 then [Failure(SinkNode, id, "")] else [])
    + Dangling(g, id, Targets(n.choices))
  }

  function LocalFailures(g: Graph, order: seq<string>): seq<Failure>
    requires forall n :: n in order ==> n in g.node
  {
    if |order| == 0 then []
    else LocalFailures(g, order[..|order| - 1]) + NodeFailures(g, order[|order| - 1])
  }

  function Mark(kind: Kind, ids: seq<string>): seq<Failure> {
    seq(|ids|, i requires 0 <= i < |ids| => Failure(kind, ids[i], ""))
  }

  /** What the checker must report, with reachability stated by paths. */
  ghost predicate Reports(story: Story, out: seq<Failure>) {
    var g := GraphOf(story);
    if story.startNode !in g.node then out == [Failure(StartMissing, story.startNode, "")]
    else exists u, t ::
      && Lists(u, Unreachable(g, story.startNode))
      && Lists(t, Trapped(g, story.startNode))
      && out == LocalFailures(g, g.order) + Mark(UnreachableNode, u) + Mark(NoEndingReachable, t)
  }

  // ----- the program -----

  method FollowLinks(g: Graph, start: string) returns (seen: set<string>)
    requires g.Valid() && start in g.node
    ensures seen == set n | n in g.node && Reaches(g, start, n)
  {
    ReachesSelf(g, start);
    seen := {start};
    var queue := [start];
    while queue != []
      invariant seen <= g.node.Keys && start in seen
      invariant forall n :: n in queue ==> n in seen
      invariant forall n :: n in seen ==> Reaches(g, start, n)
      invariant forall u, v :: u in seen && u !in queue && Edge(g, u, v) ==> v in seen
      decreases g.node.Keys - seen, |queue|
    {
      var u := queue[0];
      var targets := Targets(g.node[u].choices);
      ghost var before, waiting := seen, queue;
      assert queue == [u] + queue[1..];
      queue := queue[1..];
      for i := 0 to |targets|
        invariant before <= seen <= g.node.Keys && start in seen
        invariant seen == before ==> queue == waiting[1..]
        invariant forall n :: n in queue ==> n in seen
        invariant forall n :: n in seen ==> Reaches(g, start, n)
        invariant forall n :: n in waiting ==> n == u || n in queue
        invariant forall n :: n in seen && n !in before ==> n in queue
        invariant forall k :: 0 <= k < i && targets[k] in g.node ==> targets[k] in seen
      {
        var target := targets[i];
        if target in g.node && target !in seen {
          ReachesStep(g, start, u, target);
          seen := seen + {target};
          queue := queue + [target];
        }
      }
      assert before < seen || seen == before;
    }
    forall n | n in g.node && Reaches(g, start, n)
      ensures n in seen
    {
      var p :| PathFrom(g, p, start, n);
      StaysInside(g, seen, p);
    }
  }

  lemma {:induction false} StaysInside(g: Graph, s: set<string>, p: seq<string>)
    requires Path(g, p) && p[0] in s
    requires forall u, v :: u in s && Edge(g, u, v) ==> v in s
    ensures p[|p| - 1] in s
  {
    if |p| > 1 {
      StaysInside(g, s, p[..|p| - 1]);
      assert Edge(g, p[|p| - 2], p[|p| - 1]);
    }
  }

  predicate AnyIn(targets: seq<string>, s: set<string>) {
    exists t :: t in targets && t in s
  }

  ghost predicate Escaping(g: Graph, ids: set<string>) {
    ids <= g.node.Keys && forall n :: n in ids ==> CanEnd(g, n)
  }

  ghost predicate ClosedBackwards(g: Graph, ids: set<string>) {
    forall u, v :: Edge(g, u, v) && v in ids ==> u in ids
  }

  /** One sweep over the nodes, growing the set as it goes. */
  method Sweep(g: Graph, from: set<string>) returns (canEnd: set<string>, changed: bool)
    requires g.Valid() && Escaping(g, from)
    ensures Escaping(g, canEnd) && from <= canEnd
    ensures changed <==> canEnd != from
    ensures !changed ==> ClosedBackwards(g, canEnd)
  {
    canEnd, changed := from, false;
    for i := 0 to |g.order|
      invariant Escaping(g, canEnd) && from <= canEnd
      invariant changed <==> canEnd != from
      invariant !changed ==> forall k :: 0 <= k < i ==>
        g.order[k] in canEnd || !AnyIn(Targets(g.node[g.order[k]].choices), canEnd)
    {
      var id := g.order[i];
      assert id in g.order;
      if id !in canEnd && AnyIn(Targets(g.node[id].choices), canEnd) {
        Escape(g, id, canEnd);
        canEnd := canEnd + {id};
        changed := true;
      }
    }
    if !changed {
      forall u, v | Edge(g, u, v) && v in canEnd
        ensures u in canEnd
      {
        assert u in g.order;
        assert AnyIn(Targets(g.node[u].choices), canEnd);
      }
    }
  }

  method FindEscapes(g: Graph) returns (canEnd: set<string>)
    requires g.Valid()
    ensures canEnd == set n | n in g.node && CanEnd(g, n)
  {
    canEnd := set n | n in g.node && g.node[n].isEnding;
    forall n | n in canEnd
      ensures CanEnd(g, n)
    {
      ReachesSelf(g, n);
    }
    var changed := true;
    hide CanEnd, Edge;
    while changed
      invariant Escaping(g, canEnd)
      invariant forall n :: n in g.node && g.node[n].isEnding ==> n in canEnd
      invariant !changed ==> ClosedBackwards(g, canEnd)
      decreases g.node.Keys - canEnd, changed
    {
      canEnd, changed := Sweep(g, canEnd);
    }
    forall n | n in g.node && CanEnd(g, n)
      ensures n in canEnd
    {
      EscapeFound(g, canEnd, n);
    }
  }

  lemma {:induction false} EscapeFound(g: Graph, canEnd: set<string>, n: string)
    requires ClosedBackwards(g, canEnd) && CanEnd(g, n)
    requires forall v :: v in g.node && g.node[v].isEnding ==> v in canEnd
    ensures n in canEnd
  {
    var v :| v in g.node && g.node[v].isEnding && Reaches(g, n, v);
    var p :| PathFrom(g, p, n, v);
    PulledBack(g, canEnd, p);
  }

  lemma {:induction false} Escape(g: Graph, id: string, canEnd: set<string>)
    requires id in g.node && AnyIn(Targets(g.node[id].choices), canEnd)
    requires Escaping(g, canEnd)
    ensures CanEnd(g, id)
  {
    var t :| t in Targets(g.node[id].choices) && t in canEnd;
    var v :| v in g.node && g.node[v].isEnding && Reaches(g, t, v);
    assert Edge(g, id, t);
    StepReaches(g, id, t, v);
  }

  lemma {:induction false} PulledBack(g: Graph, s: set<string>, p: seq<string>)
    requires Path(g, p) && p[|p| - 1] in s
    requires ClosedBackwards(g, s)
    ensures p[0] in s
  {
    if |p| > 1 {
      assert Edge(g, p[0], p[1]);
      var q := p[1..];
      forall i | 0 < i < |q|
        ensures Edge(g, q[i - 1], q[i])
      {
        assert Edge(g, p[i], p[i + 1]);
      }
      PulledBack(g, s, q);
    }
  }

  method Failures(story: Story) returns (out: seq<Failure>)
    ensures Reports(story, out)
  {
    var g := GraphOf(story);
    var start := story.startNode;
    out := [];
    if start !in g.node {
      return [Failure(StartMissing, start, "")];
    }
    for i := 0 to |g.order|
      invariant out == LocalFailures(g, g.order[..i])
    {
      assert g.order[i] in g.order;
      out := out + NodeFailures(g, g.order[i]);
      assert g.order[..i + 1][..i] == g.order[..i];
    }
    assert g.order[..|g.order|] == g.order;
    var seen := FollowLinks(g, start);
    var unreachable := Sorted(g.node.Keys - seen);
    var canEnd := FindEscapes(g);
    var trapped := Sorted(seen - canEnd);
    assert g.node.Keys - seen == Unreachable(g, start);
    assert seen - canEnd == Trapped(g, start);
    out := out + Mark(UnreachableNode, unreachable) + Mark(NoEndingReachable, trapped);
  }

  // ----- what an empty report means -----

  /** One page of a well-formed story. */
  ghost predicate SoundPage(g: Graph, start: string, n: string)
    requires n in g.node
  {
    && (g.node[n].isEnding <==> g.node[n].choices == [])
    && (forall t :: t in Targets(g.node[n].choices) ==> t in g.node)
    && Reaches(g, start, n)
    && CanEnd(g, n)
  }

  /** Every choice leads somewhere, every page can be reached and escaped, and
      endings are exactly the pages that offer nothing. */
  ghost predicate WellFormed(story: Story) {
    var g := GraphOf(story);
    && story.startNode in g.node
    && forall n :: n in g.node ==> SoundPage(g, story.startNode, n)
  }

  lemma {:induction false} DanglingMembers(g: Graph, id: string, targets: seq<string>, f: Failure)
    ensures f in Dangling(g, id, targets)
       <==> f.kind == DanglingTarget && f.node == id && f.detail in targets && f.detail !in g.node
  {
    if |targets| > 0 {
      var m := |targets| - 1;
      DanglingMembers(g, id, targets[..m], f);
      assert targets == targets[..m] + [targets[m]];
    }
  }

  /** The defect a failure names is really there. */
  ghost predicate LocalDefect(g: Graph, f: Failure) {
    && f.node in g.node
    && var n := g.node[f.node];
       match f.kind
       case EndingWithChoices => n.isEnding && n.choices != [] && f.detail == ""
       case SinkNode => !n.isEnding && n.choices == [] && f.detail == ""
       case DanglingTarget => f.detail in Targets(n.choices) && f.detail !in g.node
       case _ => false
  }

  lemma {:induction false} NodeMembers(g: Graph, id: string, f: Failure)
    requires id in g.node
    ensures f in NodeFailures(g, id) <==> f.node == id && LocalDefect(g, f)
  {
    DanglingMembers(g, id, Targets(g.node[id].choices), f);
    hide Dangling, Targets;
  }

  lemma {:induction false} LocalMembers(g: Graph, order: seq<string>, f: Failure)
    requires forall n :: n in order ==> n in g.node
    ensures f in LocalFailures(g, order) <==> f.node in order && LocalDefect(g, f)
  {
    if |order| > 0 {
      var m := |order| - 1;
      LocalMembers(g, order[..m], f);
      assert order == order[..m] + [order[m]];
      NodeMembers(g, order[m], f);
      hide NodeFailures, LocalDefect;
    }
  }

  lemma {:induction false} MarkMembers(kind: Kind, ids: seq<string>, f: Failure)
    ensures f in Mark(kind, ids) <==> f.kind == kind && f.node in ids && f.detail == ""
  {
    if f.kind == kind && f.node in ids && f.detail == "" {
      var i :| 0 <= i < |ids| && ids[i] == f.node;
      assert Mark(kind, ids)[i] == f;
    }
  }

  /** A defect of one page, with reachability stated by paths. */
  ghost predicate PageDefect(g: Graph, start: string, f: Failure) {
    || LocalDefect(g, f)
    || (f.kind == UnreachableNode && f.node in Unreachable(g, start) && f.detail == "")
    || (f.kind == NoEndingReachable && f.node in Trapped(g, start) && f.detail == "")
  }

  /** Every defect of a story. */
  ghost predicate Defect(story: Story, f: Failure) {
    var g := GraphOf(story);
    if story.startNode !in g.node then f == Failure(StartMissing, story.startNode, "")
    else PageDefect(g, story.startNode, f)
  }

  /** The checker is sound and complete: it reports exactly the defects. */
  lemma {:induction false} ReportsExactlyTheDefects(story: Story, out: seq<Failure>, f: Failure)
    requires Reports(story, out)
    ensures f in out <==> Defect(story, f)
  {
    var g := GraphOf(story);
    if story.startNode in g.node {
      var u, t :|
        && Lists(u, Unreachable(g, story.startNode))
        && Lists(t, Trapped(g, story.startNode))
        && out == LocalFailures(g, g.order) + Mark(UnreachableNode, u) + Mark(NoEndingReachable, t);
      LocalMembers(g, g.order, f);
      MarkMembers(UnreachableNode, u, f);
      MarkMembers(NoEndingReachable, t, f);
    }
  }

  lemma {:induction false} DefectFreePage(story: Story, n: string)
    requires story.startNode in GraphOf(story).node && n in GraphOf(story).node
    requires forall f: Failure :: !Defect(story, f)
    ensures SoundPage(GraphOf(story), story.startNode, n)
  {
    var g := GraphOf(story);
    hide Reaches, CanEnd, Index, Targets;
    assert !Defect(story, Failure(UnreachableNode, n, ""));
    assert !Defect(story, Failure(NoEndingReachable, n, ""));
    assert !Defect(story, Failure(EndingWithChoices, n, ""));
    assert !Defect(story, Failure(SinkNode, n, ""));
    forall t | t in Targets(g.node[n].choices)
      ensures t in g.node
    {
      assert !Defect(story, Failure(DanglingTarget, n, t));
    }
  }

  lemma {:induction false} SoundPagesHaveNoDefect(story: Story, f: Failure)
    requires WellFormed(story)
    ensures !Defect(story, f)
  {
    hide Reaches, CanEnd, Index, Targets;
  }

  /** A clean report is a well-formed story, and the other way round. */
  lemma {:induction false} CleanIffWellFormed(story: Story, out: seq<Failure>)
    requires Reports(story, out)
    ensures out == [] <==> WellFormed(story)
  {
    var g := GraphOf(story);
    hide Index, Defect, SoundPage;
    if WellFormed(story) && out != [] {
      ReportsExactlyTheDefects(story, out, out[0]);
      SoundPagesHaveNoDefect(story, out[0]);
      assert false;
    }
    if out == [] {
      assert story.startNode in g.node;
      forall f: Failure
        ensures !Defect(story, f)
      {
        ReportsExactlyTheDefects(story, out, f);
      }
      forall n | n in g.node
        ensures SoundPage(g, story.startNode, n)
      {
        DefectFreePage(story, n);
      }
    }
  }

  // ----- short ways out -----

  ghost predicate Simple(p: seq<string>) {
    forall i, j :: 0 <= i < j < |p| ==> p[i] != p[j]
  }

  /** Any path can be shortened until no node repeats. */
  lemma {:induction false} SimplePath(g: Graph, p: seq<string>, u: string, v: string) returns (q: seq<string>)
    requires PathFrom(g, p, u, v)
    ensures PathFrom(g, q, u, v) && Simple(q)
    decreases |p|
  {
    if Simple(p) {
      return p;
    }
    var i, j :| 0 <= i < j < |p| && p[i] == p[j];
    var cut := p[..i] + p[j..];
    forall k | 0 < k < |cut|
      ensures Edge(g, cut[k - 1], cut[k])
    {
      if k < i {
        assert Edge(g, p[k - 1], p[k]);
      } else if k == i {
        assert Edge(g, p[i - 1], p[i]);
      } else {
        assert Edge(g, p[k - i + j - 1], p[k - i + j]);
      }
    }
    assert cut[0] == u by {
      if i == 0 {
        assert cut[0] == p[j] == p[0];
      }
    }
    q := SimplePath(g, cut, u, v);
  }

  lemma {:induction false} SimpleIsShort(p: seq<string>, s: set<string>)
    requires Simple(p) && forall i :: 0 <= i < |p| ==> p[i] in s
    ensures |p| <= |s|
  {
    if |p| > 0 {
      var m := |p| - 1;
      SimpleIsShort(p[..m], s - {p[m]});
    }
  }

  lemma {:induction false} ShortWayOut(g: Graph, n: string, v: string) returns (p: seq<string>)
    requires n in g.node && Reaches(g, n, v)
    ensures PathFrom(g, p, n, v) && v in g.node && |p| - 1 < |g.node|
  {
    var long :| PathFrom(g, long, n, v);
    p := SimplePath(g, long, n, v);
    PathNodes(g, p);
    SimpleIsShort(p, g.node.Keys);
    assert |g.node.Keys| == |g.node|;
  }

  /** In a well-formed story every page has a way to an ending that takes fewer
      steps than there are pages, cycles or not. */
  lemma {:induction false} EndingWithinPageCount(story: Story, n: string) returns (p: seq<string>)
    requires WellFormed(story) && n in GraphOf(story).node
    ensures var g := GraphOf(story);
            && Path(g, p) && p[0] == n
            && p[|p| - 1] in g.node && g.node[p[|p| - 1]].isEnding
            && |p| - 1 < |g.node|
  {
    var g := GraphOf(story);
    hide Path, Index;
    assert SoundPage(g, story.startNode, n);
    var v :| v in g.node && g.node[v].isEnding && Reaches(g, n, v);
    p := ShortWayOut(g, n, v);
  }
}
