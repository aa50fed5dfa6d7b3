/** The exposure simulators of `scripts/analyze_sibling_exposure.py`: readers of one
    family take turns drawing from a band's cells, and the tally says who has met a
    repeat by when. A single-cell simulation is the instance with one non-empty cell. */
module Exposure {

  import opened Collections
  import opened Division

  const RECENT_WINDOW := 20

  /** What the simulation is run on. `cell(k)` is the cell that call number `k` draws and
      `select(k, usage)` the slug the selector picks there, given the usage counts it sees. */
  datatype Setup = Setup(
    pools: seq<seq<string>>,
    cell: nat -> nat,
    select: (nat, multiset<string>) -> string,
    children: nat,
    familyScope: bool)

  ghost predicate ValidSetup(s: Setup) {
    && s.children >= 1
    && (forall k: nat :: s.cell(k) < |s.pools|)
    && forall k: nat, u :: s.pools[s.cell(k)] != [] ==> s.select(k, u) in s.pools[s.cell(k)]
  }

  /** One request: who made it, and what was served, if the cell held anything. */
  datatype Draw = Draw(child: nat, slug: Option<string>)

  lemma {:induction false} HasReaders(s: Setup)
    requires ValidSetup(s)
    ensures s.children >= 1
  {
  }

  /** The slugs served to one reader, or to the whole family, oldest first. */
  function Slugs(trace: seq<Draw>, who: Option<nat>): seq<string> {
    if |trace| == 0 then []
    else
      var d := trace[|trace| - 1];
      Slugs(trace[..|trace| - 1], who)
      + if d.slug.Some? && (who.None? || who.value == d.child) then [d.slug.value] else []
  }

  function Window(history: seq<string>): seq<string> {
    if |history| <= RECENT_WINDOW then history else history[|history| - RECENT_WINDOW..]
  }

  /** Whose turn the request number `k` of a trial is. */
  function Turn(k: nat, children: nat): nat
    requires children > 0
  {
    k % children
  }

  /** The requests before round `index`. */
  function Offset(index: nat, children: nat): nat {
    index * children
  }

  function NextDraw(s: Setup, base: nat, trace: seq<Draw>): Draw
    requires ValidSetup(s)
  {
    var k := base + |trace|;
    var child := Turn(|trace|, s.children);
    if s.pools[s.cell(k)] == [] then Draw(child, None)
    else
      var history := Slugs(trace, if s.familyScope then None else Some(child));
      Draw(child, Some(s.select(k, multiset(Window(history)))))
  }

  /** The first `k` requests of the trial whose calls start at `base`. */
  function Play(s: Setup, base: nat, k: nat): (trace: seq<Draw>)
    requires ValidSetup(s)
    ensures |trace| == k
  {
    if k == 0 then []
    else
      var before := Play(s, base, k - 1);
      before + [NextDraw(s, base, before)]
  }

  // ----- what is measured -----

  ghost predicate HasRepeat(q: seq<string>) {
    exists i, j :: 0 <= i < j < |q| && q[i] == q[j]
  }

  function Seen(q: seq<string>): set<string> {
    set x | x in q
  }

  function Misses(trace: seq<Draw>, child: nat): nat {
    if |trace| == 0 then 0
    else
      var d := trace[|trace| - 1];
      Misses(trace[..|trace| - 1], child) + if d.slug.None? && d.child == child then 1 else 0
  }

  function Made(trace: seq<Draw>, child: nat): nat {
    if |trace| == 0 then 0
    else Made(trace[..|trace| - 1], child) + if trace[|trace| - 1].child == child then 1 else 0
  }

  function Own(trace: seq<Draw>, child: nat): seq<string> {
    Slugs(trace, Some(child))
  }

  lemma {:induction false} MadeSplits(trace: seq<Draw>, child: nat)
    ensures Made(trace, child) == |Own(trace, child)| + Misses(trace, child)
  {
    if |trace| > 0 {
      MadeSplits(trace[..|trace| - 1], child);
    }
  }

  lemma {:induction false} RepeatStep(q: seq<string>, x: string)
    ensures HasRepeat(q + [x]) <==> HasRepeat(q) || x in q
  {
    var more := q + [x];
    if i, j :| 0 <= i < j < |q| && q[i] == q[j] {
      assert more[i] == more[j];
    }
    if x in q {
      var i :| 0 <= i < |q| && q[i] == x;
      assert more[i] == more[|q|];
    }
    if i, j :| 0 <= i < j < |more| && more[i] == more[j] {
      assert j < |q| ==> q[i] == q[j];
    }
  }

  /** A list repeats exactly when it has fewer distinct members than entries. */
  lemma {:induction false} RepeatIffFewerSeen(q: seq<string>)
    ensures |Seen(q)| <= |q|
    ensures HasRepeat(q) <==> |Seen(q)| < |q|
  {
    if |q| > 0 {
      var less, x := q[..|q| - 1], q[|q| - 1];
      assert q == less + [x];
      RepeatIffFewerSeen(less);
      RepeatStep(less, x);
      assert Seen(q) == Seen(less) + {x};
    }
  }

  /** Everything the program keeps about one reader. */
  datatype Reader = Reader(seen: set<string>, repeated: bool, unservable: nat)

  ghost predicate ReaderAt(r: Reader, trace: seq<Draw>, child: nat) {
    && r.seen == Seen(Own(trace, child))
    && r.unservable == Misses(trace, child)
    && (r.repeated <==> HasRepeat(Own(trace, child)))
  }

  function AfterDraw(r: Reader, d: Draw): Reader {
    match d.slug
    case None => r.(unservable := r.unservable + 1)
    case Some(slug) => Reader(r.seen + {slug}, r.repeated || slug in r.seen, r.unservable)
  }

  /** The record the loop has for a reader after these draws. */
  function Record(trace: seq<Draw>, child: nat): Reader {
    if |trace| == 0 then Reader({}, false, 0)
    else
      var before, d := Record(trace[..|trace| - 1], child), trace[|trace| - 1];
      if d.child == child then AfterDraw(before, d) else before
  }

  lemma {:induction false} ReaderStep(r: Reader, trace: seq<Draw>, d: Draw, child: nat)
    requires ReaderAt(r, trace, child)
    ensures ReaderAt(if d.child == child then AfterDraw(r, d) else r, trace + [d], child)
  {
    assert (trace + [d])[..|trace|] == trace;
    var own := Own(trace, child);
    if d.child == child && d.slug.Some? {
      RepeatStep(own, d.slug.value);
      assert Seen(own + [d.slug.value]) == Seen(own) + {d.slug.value};
    } else {
      assert Own(trace + [d], child) == own;
    }
  }

  /** `ReaderAt` pins the record down. */
  lemma {:induction false} RecordIs(trace: seq<Draw>, child: nat)
    ensures forall r :: ReaderAt(r, trace, child) <==> r == Record(trace, child)
  {
    if |trace| == 0 {
      assert Seen([]) == {};
    } else {
      var before, d := trace[..|trace| - 1], trace[|trace| - 1];
      RecordIs(before, child);
      assert before + [d] == trace;
      ReaderStep(Record(before, child), before, d, child);
    }
  }

  /** The bookkeeping invariant, after any draws by anybody: a reader has met a repeat
      exactly when the distinct slugs they saw and their unservable requests fall short
      of the requests they made. */
  lemma {:induction false} RepeatedIffShort(trace: seq<Draw>, child: nat)
    ensures var r := Record(trace, child);
            r.repeated <==> |r.seen| + r.unservable < Made(trace, child)
  {
    RecordIs(trace, child);
    MadeSplits(trace, child);
    RepeatIffFewerSeen(Own(trace, child));
    assert ReaderAt(Record(trace, child), trace, child);
  }

  // ----- totals over a round and over trials -----

  ghost function Repeaters(trace: seq<Draw>, n: nat): nat {
    if n == 0 then 0 else Repeaters(trace, n - 1) + if HasRepeat(Own(trace, n - 1)) then 1 else 0
  }

  function Distinct(trace: seq<Draw>, n: nat): nat {
    if n == 0 then 0 else Distinct(trace, n - 1) + |Seen(Own(trace, n - 1))|
  }

  function Unserved(trace: seq<Draw>, n: nat): nat {
    if n == 0 then 0 else Unserved(trace, n - 1) + Misses(trace, n - 1)
  }

  /** The family after every reader has made `i + 1` requests of trial `t`. */
  function RoundTrace(s: Setup, requests: nat, t: nat, i: nat): seq<Draw>
    requires ValidSetup(s)
  {
    Play(s, Offset(t, Offset(requests, s.children)), Offset(i + 1, s.children))
  }

  ghost function RepeatTotal(s: Setup, requests: nat, trials: nat, i: nat): nat
    requires ValidSetup(s)
  {
    if trials == 0 then 0
    else RepeatTotal(s, requests, trials - 1, i) + Repeaters(RoundTrace(s, requests, trials - 1, i), s.children)
  }

  function DistinctTotal(s: Setup, requests: nat, trials: nat, i: nat): nat
    requires ValidSetup(s)
  {
    if trials == 0 then 0
    else DistinctTotal(s, requests, trials - 1, i) + Distinct(RoundTrace(s, requests, trials - 1, i), s.children)
  }

  function UnservedTotal(s: Setup, requests: nat, trials: nat, i: nat): nat
    requires ValidSetup(s)
  {
    if trials == 0 then 0
    else UnservedTotal(s, requests, trials - 1, i) + Unserved(RoundTrace(s, requests, trials - 1, i), s.children)
  }

  /** A draw by one reader leaves the others' records alone. */
  lemma {:induction false} OthersUnmoved(trace: seq<Draw>, d: Draw, n: nat)
    requires d.child >= n
    ensures Repeaters(trace + [d], n) == Repeaters(trace, n)
    ensures Distinct(trace + [d], n) == Distinct(trace, n)
    ensures Unserved(trace + [d], n) == Unserved(trace, n)
  {
    if n > 0 {
      OthersUnmoved(trace, d, n - 1);
      assert (trace + [d])[..|trace|] == trace;
      assert Own(trace + [d], n - 1) == Own(trace, n - 1);
    }
  }

  // ----- the program -----

  /** The running counts for one request index. */
  datatype Tally = Tally(repeats: nat, distinct: nat, unserved: nat)

  ghost function Added(t: Tally, trace: seq<Draw>, n: nat): Tally {
    Tally(t.repeats + Repeaters(trace, n), t.distinct + Distinct(trace, n), t.unserved + Unserved(trace, n))
  }

  /** The per-family state: the shared history and each reader's own history and record. */
  datatype Family = Family(history: seq<string>, own: seq<seq<string>>, readers: seq<Reader>)

  ghost predicate FamilyAt(f: Family, trace: seq<Draw>, children: nat) {
    && |f.own| == |f.readers| == children
    && f.history == Slugs(trace, None)
    && forall c :: 0 <= c < children ==> f.own[c] == Own(trace, c) && ReaderAt(f.readers[c], trace, c)
  }

  lemma {:induction false} SlugsStep(trace: seq<Draw>, d: Draw, who: Option<nat>)
    ensures Slugs(trace + [d], who)
         == if d.slug.Some? && (who.None? || who.value == d.child) then Slugs(trace, who) + [d.slug.value] else Slugs(trace, who)
  {
    assert (trace + [d])[..|trace|] == trace;
  }

  /** What one request is served: nothing from an empty cell, else the selector's pick,
      made on the usage of the recent window of the history it is shown. */
  method Serve(s: Setup, calls: nat, child: nat, f: Family, ghost base: nat,
        ghost trace: seq<Draw>) returns (slug: Option<string>)
    requires ValidSetup(s) && child < s.children && Turn(|trace|, s.children) == child && calls == base + |trace|
    requires FamilyAt(f, trace, s.children)
    ensures NextDraw(s, base, trace) == Draw(child, slug)
  {
    hide ReaderAt, Slugs, Misses;
    if s.pools[s.cell(calls)] == [] {
      return None;
    }
    var history := if s.familyScope then f.history else f.own[child];
    slug := Some(s.select(calls, multiset(Window(history))));
  }

  /** One reader's request, call number `calls` of the simulation. */
  method Request(s: Setup, calls: nat, child: nat, f: Family, ghost base: nat, ghost trace: seq<Draw>) returns (g: Family)
    requires ValidSetup(s) && child < s.children && Turn(|trace|, s.children) == child && calls == base + |trace|
    requires FamilyAt(f, trace, s.children)
    ensures FamilyAt(g, trace + [NextDraw(s, base, trace)], s.children)
  {
    hide NextDraw, ReaderAt, Slugs, ValidSetup;
    var slug := Serve(s, calls, child, f, base, trace);
    var reader := f.readers[child];
    if slug.None? {
      g := f.(readers := f.readers[child := reader.(unservable := reader.unservable + 1)]);
    } else {
      if slug.value in reader.seen {
        reader := reader.(repeated := true);
      }
      reader := reader.(seen := reader.seen + {slug.value});
      g := Family(f.history + [slug.value], f.own[child := f.own[child] + [slug.value]], f.readers[child := reader]);
    }
    ghost var d := Draw(child, slug);
    assert g.readers[child] == AfterDraw(f.readers[child], d);
    SlugsStep(trace, d, None);
    forall c | 0 <= c < s.children
      ensures g.own[c] == Own(trace + [d], c) && ReaderAt(g.readers[c], trace + [d], c)
    {
      SlugsStep(trace, d, Some(c));
      ReaderStep(f.readers[c], trace, d, c);
    }
  }

  lemma TurnOf(index: nat, child: nat, children: nat)
    requires child < children
    ensures Turn(Offset(index, children) + child, children) == child
    ensures Offset(index + 1, children) == Offset(index, children) + children
  {
    QuotientIs(index * children + child, children, index, child);
  }

  lemma TurnInRound(start: nat, child: nat, children: nat)
    requires child < children && Turn(start, children) == 0
    ensures Turn(start + child, children) == child
  {
    var q := start / children;
    assert start == Offset(q, children);
    TurnOf(q, child, children);
  }

  lemma {:induction false} NothingAdded(t: Tally, trace: seq<Draw>)
    ensures Added(t, trace, 0) == t
  {
  }

  lemma {:induction false} DrawnBy(s: Setup, base: nat, trace: seq<Draw>)
    requires ValidSetup(s)
    ensures NextDraw(s, base, trace).child == Turn(|trace|, s.children)
  {
  }

  /** What the reader who has just drawn adds to the running counts. */
  lemma {:induction false} CountReader(t: Tally, trace: seq<Draw>, d: Draw, child: nat, g: Family, children: nat)
    requires d.child == child < children && FamilyAt(g, trace + [d], children)
    ensures |g.readers| == children
    ensures var was, reader := Added(t, trace, child), g.readers[child];
            Added(t, trace + [d], child + 1)
            == Tally(was.repeats + (if reader.repeated then 1
                  else 0), was.distinct + |reader.seen|, was.unserved + reader.unservable)
  {
    OthersUnmoved(trace, d, child);
    assert ReaderAt(g.readers[child], trace + [d], child);
  }

  lemma {:induction false} PlayStep(s: Setup, base: nat, trace: seq<Draw>)
    requires ValidSetup(s) && trace == Play(s, base, |trace|)
    ensures trace + [NextDraw(s, base, trace)] == Play(s, base, |trace| + 1)
  {
  }

  /** One reader's turn and what it adds to the running counts. */
  method TakeTurn(s: Setup, calls: nat, child: nat, f: Family, tally: Tally, ghost base: nat, ghost first: Tally,
        ghost trace: seq<Draw>)
    returns (g: Family, counted: Tally)
    requires ValidSetup(s) && child < s.children && Turn(|trace|, s.children) == child && calls == base + |trace|
    requires trace == Play(s, base, |trace|) && FamilyAt(f, trace, s.children) && tally == Added(first, trace, child)
    ensures FamilyAt(g, Play(s, base, |trace| + 1), s.children)
    ensures counted == Added(first, Play(s, base, |trace| + 1), child + 1)
  {
    ghost var d := NextDraw(s, base, trace);
    g := Request(s, calls, child, f, base, trace);
    PlayStep(s, base, trace);
    DrawnBy(s, base, trace);
    hide FamilyAt, NextDraw, Added, Turn, Play;
    CountReader(first, trace, d, child, g, s.children);
    var reader := g.readers[child];
    counted := Tally(
      tally.repeats + if reader.repeated then 1 else 0,
      tally.distinct + |reader.seen|,
      tally.unserved + reader.unservable);
  }

  /** One more request of every reader, in turn, after `start` requests of the trial. */
  method Round(s: Setup, base: nat, start: nat, f: Family, tally: Tally) returns (g: Family, counted: Tally)
    requires ValidSetup(s) && Turn(start, s.children) == 0 && FamilyAt(f, Play(s, base, start), s.children)
    ensures FamilyAt(g, Play(s, base, start + s.children), s.children)
    ensures counted == Added(tally, Play(s, base, start + s.children), s.children)
  {
    g, counted := f, tally;
    hide *;
    NothingAdded(tally, Play(s, base, start));
    for child := 0 to s.children
      invariant FamilyAt(g, Play(s, base, start + child), s.children)
      invariant counted == Added(tally, Play(s, base, start + child), child)
    {
      TurnInRound(start, child, s.children);
      g, counted := TakeTurn(s, base + start + child, child, g, counted, base, tally, Play(s, base, start + child));
    }
  }

  lemma RoundBoundary(index: nat, children: nat)
    requires children > 0
    ensures Turn(Offset(index, children), children) == 0
    ensures Offset(index + 1, children) == Offset(index, children) + children
  {
    TurnOf(index, 0, children);
  }

  method IndexRound(s: Setup, base: nat, index: nat, f: Family, tally: Tally) returns (g: Family, counted: Tally)
    requires ValidSetup(s) && s.children > 0 && FamilyAt(f, Play(s, base, Offset(index, s.children)), s.children)
    ensures FamilyAt(g, Play(s, base, Offset(index + 1, s.children)), s.children)
    ensures counted == Added(tally, Play(s, base, Offset(index + 1, s.children)), s.children)
  {
    hide *;
    RoundBoundary(index, s.children);
    g, counted := Round(s, base, Offset(index, s.children), f, tally);
  }

  ghost predicate TalliesAt(s: Setup, base: nat, before: seq<Tally>, after: seq<Tally>, n: nat)
    requires ValidSetup(s)
  {
    && |before| == |after|
    && forall i :: 0 <= i < |before| ==>
         after[i] == if i < n then Added(before[i], Play(s, base, Offset(i + 1, s.children)), s.children) else before[i]
  }

  /** A family that has read nothing. */
  method NewFamily(children: nat) returns (f: Family)
    ensures FamilyAt(f, [], children)
  {
    f := Family([], seq(children, _ => []), seq(children, _ => Reader({}, false, 0)));
    assert Seen([]) == {};
  }

  lemma {:induction false} TalliesStart(s: Setup, base: nat, before: seq<Tally>)
    requires ValidSetup(s)
    ensures TalliesAt(s, base, before, before, 0)
  {
    hide Play, Added, Offset, ValidSetup;
  }

  lemma {:induction false} TalliesStep(s: Setup, base: nat, before: seq<Tally>, after: seq<Tally>, n: nat, counted: Tally)
    requires ValidSetup(s) && n < |before| == |after| && TalliesAt(s, base, before, after, n)
    requires counted == Added(after[n], Play(s, base, Offset(n + 1, s.children)), s.children)
    ensures TalliesAt(s, base, before, after[n := counted], n + 1)
  {
    hide Play, Added, Offset, ValidSetup;
  }

  /** Round `index` of a trial: every reader's request, counted under that index. */
  method CountRound(s: Setup, base: nat, index: nat, f: Family, tallies: seq<Tally>, ghost before: seq<Tally>)
    returns (g: Family, counted: seq<Tally>)
    requires ValidSetup(s) && index < |before| == |tallies|
    requires FamilyAt(f, Play(s, base, Offset(index, s.children)), s.children) && TalliesAt(s, base, before, tallies, index)
    ensures |counted| == |before| && TalliesAt(s, base, before, counted, index + 1)
    ensures FamilyAt(g, Play(s, base, Offset(index + 1, s.children)), s.children)
  {
    HasReaders(s);
    hide *;
    var tally: Tally;
    g, tally := IndexRound(s, base, index, f, tallies[index]);
    counted := tallies[index := tally];
    TalliesStep(s, base, before, tallies, index, tally);
  }

  /** One trial: a family of readers, `|before|` requests each. */
  method Trial(s: Setup, base: nat, before: seq<Tally>) returns (after: seq<Tally>)
    requires ValidSetup(s)
    ensures TalliesAt(s, base, before, after, |before|)
  {
    hide *;
    after := before;
    var family := NewFamily(s.children);
    PlayNothing(s, base);
    TalliesStart(s, base, before);
    for index := 0 to |before|
      invariant FamilyAt(family, Play(s, base, Offset(index, s.children)), s.children)
      invariant |after| == |before| && TalliesAt(s, base, before, after, index)
    {
      family, after := CountRound(s, base, index, family, after, before);
    }
  }

  lemma {:induction false} PlayNothing(s: Setup, base: nat)
    requires ValidSetup(s)
    ensures Play(s, base, 0) == [] && Offset(0, s.children) == 0
  {
  }

  /** All trials, one after another. */
  method Simulate(s: Setup, trials: nat, requests: nat) returns (tallies: seq<Tally>)
    requires ValidSetup(s)
    ensures |tallies| == requests
    ensures forall i :: 0 <= i < requests ==>
              tallies[i] == Tally(RepeatTotal(s, requests, trials, i), DistinctTotal(s, requests, trials, i),
                  UnservedTotal(s, requests, trials, i))
  {
    tallies := seq(requests, _ => Tally(0, 0, 0));
    for t := 0 to trials
      invariant |tallies| == requests
      invariant forall i :: 0 <= i < requests ==>
        tallies[i] == Tally(RepeatTotal(s, requests, t, i), DistinctTotal(s, requests, t, i), UnservedTotal(s, requests, t, i))
    {
      tallies := Trial(s, Offset(t, Offset(requests, s.children)), tallies);
    }
  }

  // ----- the shape of a curve -----

  lemma {:induction false} SlugsGrow(trace: seq<Draw>, d: Draw, who: Option<nat>)
    ensures |Slugs(trace, who)| <= |Slugs(trace + [d], who)|
    ensures forall i :: 0 <= i < |Slugs(trace, who)| ==> Slugs(trace + [d], who)[i] == Slugs(trace, who)[i]
  {
    SlugsStep(trace, d, who);
  }

  lemma {:induction false} RepeatStays(trace: seq<Draw>, d: Draw, child: nat)
    requires HasRepeat(Own(trace, child))
    ensures HasRepeat(Own(trace + [d], child))
  {
    SlugsGrow(trace, d, Some(child));
    var i, j :| 0 <= i < j < |Own(trace, child)| && Own(trace, child)[i] == Own(trace, child)[j];
    assert Own(trace + [d], child)[i] == Own(trace + [d], child)[j];
  }

  lemma {:induction false} RepeatersStay(trace: seq<Draw>, d: Draw, n: nat)
    ensures Repeaters(trace, n) <= Repeaters(trace + [d], n) <= n
  {
    hide Slugs, HasRepeat;
    if n > 0 {
      RepeatersStay(trace, d, n - 1);
      if HasRepeat(Own(trace, n - 1)) {
        RepeatStays(trace, d, n - 1);
      }
    }
  }

  lemma {:induction false} RepeatersBound(trace: seq<Draw>, n: nat)
    ensures Repeaters(trace, n) <= n
  {
    if n > 0 {
      RepeatersBound(trace, n - 1);
    }
  }

  lemma {:induction false} PlayNext(s: Setup, base: nat, k: nat)
    requires ValidSetup(s)
    ensures Play(s, base, k + 1) == Play(s, base, k) + [NextDraw(s, base, Play(s, base, k))]
  {
    hide NextDraw, ValidSetup;
  }

  lemma {:induction false} RepeatersGrow(s: Setup, base: nat, k: nat, more: nat)
    requires ValidSetup(s)
    ensures Repeaters(Play(s, base, k), s.children) <= Repeaters(Play(s, base, k + more), s.children)
  {
    hide *;
    if more == 0 {
      assert k + more == k;
    } else {
      RepeatersGrow(s, base, k, more - 1);
      var before := Play(s, base, k + more - 1);
      PlayNext(s, base, k + more - 1);
      RepeatersStay(before, NextDraw(s, base, before), s.children);
    }
  }

  lemma {:induction false} TotalStep(s: Setup, requests: nat, trials: nat, i: nat)
    requires ValidSetup(s)
    ensures RepeatTotal(s, requests, trials + 1, i)
         == RepeatTotal(s, requests, trials, i) + Repeaters(RoundTrace(s, requests, trials, i), s.children)
  {
    hide RoundTrace, Repeaters, ValidSetup;
  }

  lemma OffsetStep(index: nat, children: nat)
    ensures Offset(index + 1, children) == Offset(index, children) + children
    ensures Offset(0, children) == 0
  {
  }

  lemma {:induction false} NoTrials(s: Setup, requests: nat, i: nat)
    requires ValidSetup(s)
    ensures RepeatTotal(s, requests, 0, i) == 0
  {
  }

  lemma {:induction false} RoundRises(s: Setup, requests: nat, t: nat, i: nat)
    requires ValidSetup(s)
    ensures Repeaters(RoundTrace(s, requests, t, i), s.children) <= Repeaters(RoundTrace(s, requests, t, i + 1), s.children)
  {
    hide Offset, Play, Repeaters, ValidSetup;
    OffsetStep(i + 1, s.children);
    RepeatersGrow(s, Offset(t, Offset(requests, s.children)), Offset(i + 1, s.children), s.children);
  }

  /** The repeat counts never fall with the request index and never exceed the readers observed. */
  lemma {:induction false} RepeatsRise(s: Setup, requests: nat, trials: nat, i: nat)
    requires ValidSetup(s)
    ensures RepeatTotal(s, requests, trials, i) <= RepeatTotal(s, requests, trials, i + 1)
    ensures RepeatTotal(s, requests, trials, i) <= Offset(trials, s.children)
  {
    hide *;
    if trials == 0 {
      NoTrials(s, requests, i);
      NoTrials(s, requests, i + 1);
      OffsetStep(0, s.children);
    } else {
      RepeatsRise(s, requests, trials - 1, i);
      TotalStep(s, requests, trials - 1, i);
      TotalStep(s, requests, trials - 1, i + 1);
      OffsetStep(trials - 1, s.children);
      RoundRises(s, requests, trials - 1, i);
      RepeatersBound(RoundTrace(s, requests, trials - 1, i), s.children);
    }
  }

  lemma OnlyReader(k: nat)
    ensures Turn(k, 1) == 0 && Offset(k, 1) == k
  {
  }

  function OtherScope(s: Setup): Setup {
    s.(familyScope := !s.familyScope)
  }

  lemma {:induction false} ScopedDraw(s: Setup, base: nat, trace: seq<Draw>)
    requires ValidSetup(s) && s.children == 1 && Slugs(trace, None) == Slugs(trace, Some(0))
    ensures ValidSetup(OtherScope(s)) && NextDraw(OtherScope(s), base, trace) == NextDraw(s, base, trace)
    ensures NextDraw(s, base, trace).child == 0
  {
    hide Slugs, Turn, Window;
    OnlyReader(|trace|);
  }

  /** With a single reader the two history scopes are the same simulation. */
  lemma {:induction false} ScopesAgree(s: Setup, base: nat, k: nat)
    requires ValidSetup(s) && s.children == 1
    ensures ValidSetup(OtherScope(s)) && Play(OtherScope(s), base, k) == Play(s, base, k)
    ensures Slugs(Play(s, base, k), None) == Own(Play(s, base, k), 0)
  {
    assert ValidSetup(OtherScope(s));
    hide Slugs, Turn, Play, ValidSetup, NextDraw, OtherScope;
    if k == 0 {
      PlayNothing(s, base);
      PlayNothing(OtherScope(s), base);
      NoSlugs();
    } else {
      ScopesAgree(s, base, k - 1);
      var before := Play(s, base, k - 1);
      ScopedDraw(s, base, before);
      PlayNext(s, base, k - 1);
      PlayNext(OtherScope(s), base, k - 1);
      SlugsStep(before, NextDraw(s, base, before), None);
      SlugsStep(before, NextDraw(s, base, before), Some(0));
    }
  }

  lemma NoSlugs()
    ensures Slugs([], None) == [] == Slugs([], Some(0))
  {
  }

  // ----- one cell, pigeonhole -----

  /** The single-cell simulation: every call draws the one cell, and it is not empty. */
  ghost predicate OneCell(s: Setup) {
    ValidSetup(s) && |s.pools| == 1 && s.pools[0] != []
  }

  /** A draw from the one cell is a book of its pool, for whoever's turn it is. */
  lemma {:induction false} OneCellDraw(s: Setup, base: nat, trace: seq<Draw>)
    requires OneCell(s)
    ensures var d := NextDraw(s, base, trace);
            d.slug.Some? && d.slug.value in s.pools[0] && d.child == Turn(|trace|, s.children)
  {
    hide Slugs, Turn, Window;
    assert s.cell(base + |trace|) == 0;
  }

  lemma {:induction false} ServedFromPool(s: Setup, base: nat, k: nat, who: Option<nat>)
    requires OneCell(s)
    ensures forall x :: x in Slugs(Play(s, base, k), who) ==> x in s.pools[0]
  {
    if k > 0 {
      hide Slugs, NextDraw, Turn, Play;
      ServedFromPool(s, base, k - 1, who);
      PlayNext(s, base, k - 1);
      var before := Play(s, base, k - 1);
      OneCellDraw(s, base, before);
      SlugsStep(before, NextDraw(s, base, before), who);
    }
  }

  lemma {:induction false} OwnStep(s: Setup, base: nat, k: nat, child: nat)
    requires OneCell(s)
    ensures |Own(Play(s, base, k + 1), child)|
         == |Own(Play(s, base, k), child)| + if Turn(k, s.children) == child then 1 else 0
  {
    hide Slugs, NextDraw, Turn, Play;
    var before := Play(s, base, k);
    PlayNext(s, base, k);
    OneCellDraw(s, base, before);
    SlugsStep(before, NextDraw(s, base, before), Some(child));
  }

  lemma {:induction false} NothingOwned(s: Setup, base: nat, child: nat)
    requires OneCell(s)
    ensures |Own(Play(s, base, 0), child)| == 0
  {
  }

  lemma {:induction false} ServedStep(s: Setup, base: nat, k: nat, child: nat, turn: nat)
    requires OneCell(s) && s.children >= 1 && Turn(k, s.children) == turn
    ensures |Own(Play(s, base, k + 1), child)| == |Own(Play(s, base, k), child)| + if turn == child then 1 else 0
  {
    hide OneCell, Slugs, Turn, Play;
    OwnStep(s, base, k, child);
  }

  /** After `n` whole rounds and `t` turns, who has been served how often. */
  lemma {:induction false} ServedCount(s: Setup, base: nat, n: nat, t: nat, child: nat)
    requires OneCell(s) && s.children >= 1 && t <= s.children && child < s.children
    ensures |Own(Play(s, base, Offset(n, s.children) + t), child)| == n + if child < t then 1 else 0
    decreases n, t
  {
    hide *;
    if t > 0 {
      ServedCount(s, base, n, t - 1, child);
      TurnOf(n, t - 1, s.children);
      ServedStep(s, base, Offset(n, s.children) + (t - 1), child, t - 1);
    } else if n > 0 {
      ServedCount(s, base, n - 1, s.children, child);
      OffsetStep(n - 1, s.children);
    } else {
      OffsetStep(0, s.children);
      NothingOwned(s, base, child);
    }
  }

  lemma {:induction false} SeenWithin(q: seq<string>, pool: seq<string>)
    requires forall x :: x in q ==> x in pool
    ensures |Seen(q)| <= |Seen(pool)| <= |pool|
  {
    RepeatIffFewerSeen(pool);
    SubsetCount(Seen(q), Seen(pool));
  }

  lemma {:induction false} SubsetCount(a: set<string>, b: set<string>)
    requires a <= b
    ensures |a| <= |b|
  {
    if a != {} {
      var x :| x in a;
      SubsetCount(a - {x}, b - {x});
    }
  }

  lemma {:induction false} AllRepeat(trace: seq<Draw>, n: nat)
    requires forall c :: 0 <= c < n ==> HasRepeat(Own(trace, c))
    ensures Repeaters(trace, n) == n
  {
    if n > 0 {
      AllRepeat(trace, n - 1);
    }
  }

  /** One trial past the pool size: everyone has met a repeat. */
  lemma {:induction false} RoundCertain(s: Setup, requests: nat, t: nat, i: nat)
    requires OneCell(s) && i >= |Seen(s.pools[0])|
    ensures Repeaters(RoundTrace(s, requests, t, i), s.children) == s.children
  {
    hide Offset, Play, Repeaters, HasRepeat, Slugs, Seen, ValidSetup;
    var base := Offset(t, Offset(requests, s.children));
    var trace := RoundTrace(s, requests, t, i);
    forall c | 0 <= c < s.children
      ensures HasRepeat(Own(trace, c))
    {
      ServedCount(s, base, i + 1, 0, c);
      ServedFromPool(s, base, |trace|, Some(c));
      SeenWithin(Own(trace, c), s.pools[0]);
      RepeatIffFewerSeen(Own(trace, c));
    }
    AllRepeat(trace, s.children);
  }

  /** Past the pool size every reader has met a repeat, whatever the selector does. */
  lemma {:induction false} CertainPastThePool(s: Setup, requests: nat, trials: nat, i: nat)
    requires OneCell(s) && i >= |Seen(s.pools[0])|
    ensures RepeatTotal(s, requests, trials, i) == Offset(trials, s.children)
  {
    hide Repeaters, RoundTrace, Offset, RepeatTotal, Seen;
    if trials > 0 {
      CertainPastThePool(s, requests, trials - 1, i);
      TotalStep(s, requests, trials - 1, i);
      RoundCertain(s, requests, trials - 1, i);
      OffsetStep(trials - 1, s.children);
    } else {
      NoTrials(s, requests, i);
      OffsetStep(0, s.children);
    }
  }

  // ----- one reader under the reuse cap -----

  /** The selector never picks a slug the window shows as used while an unused one exists. */
  ghost predicate HonoursCap(s: Setup)
    requires OneCell(s)
  {
    forall k: nat, u: multiset<string>, x ::
      x in s.pools[0] && u[x] == 0 ==> u[s.select(k, u)] == 0
  }

  /** The hard filter before the draw: the unused candidates, or all of them when every
      one has been used. */
  function Unused(candidates: seq<string>, usage: multiset<string>): (pool: seq<string>)
    ensures forall x :: x in pool <==> x in candidates && usage[x] == 0
  {
    if candidates == [] then []
    else if usage[candidates[0]] == 0 then [candidates[0]] + Unused(candidates[1..], usage)
    else Unused(candidates[1..], usage)
  }

  function ReuseCap(candidates: seq<string>, usage: multiset<string>): (r: (seq<string>, bool)) {
    var unused := Unused(candidates, usage);
    if unused != [] then (unused, false) else (candidates, true)
  }

  lemma {:induction false} UnusedInOrder(a: seq<string>, b: seq<string>, usage: multiset<string>)
    ensures Unused(a + b, usage) == Unused(a, usage) + Unused(b, usage)
  {
    if a == [] {
      assert a + b == b;
    } else {
      assert (a + b)[1..] == a[1..] + b;
      UnusedInOrder(a[1..], b, usage);
    }
  }

  lemma {:induction false} UnusedCounts(candidates: seq<string>, usage: multiset<string>, x: string)
    ensures multiset(Unused(candidates, usage))[x] == if usage[x] == 0 then multiset(candidates)[x] else 0
  {
    if candidates != [] {
      UnusedCounts(candidates[1..], usage, x);
      assert candidates == [candidates[0]] + candidates[1..];
    }
  }

  /** The cap is dropped exactly when no candidate is unused, and then every candidate stays;
      otherwise each unused one stays as often as it was offered and no other does. */
  lemma {:induction false} CapIsDroppedIff(candidates: seq<string>, usage: multiset<string>, x: string)
    ensures ReuseCap(candidates, usage).1 <==> forall c :: c in candidates ==> usage[c] > 0
    ensures ReuseCap(candidates, usage).1 ==> ReuseCap(candidates, usage).0 == candidates
    ensures !ReuseCap(candidates, usage).1 ==>
              multiset(ReuseCap(candidates, usage).0)[x] == if usage[x] == 0 then multiset(candidates)[x] else 0
  {
    UnusedCounts(candidates, usage, x);
    var unused := Unused(candidates, usage);
    if unused != [] {
      assert unused[0] in unused;
    } else {
      assert forall c :: c in candidates && usage[c] == 0 ==> c in unused;
    }
  }

  /** Whatever the weights, a draw from what the filter leaves honours the cap. */
  lemma {:induction false} FilteredDrawHonoursCap(s: Setup)
    requires |s.pools| == 1 && s.pools[0] != [] && s.children >= 1
    requires forall k: nat :: s.cell(k) == 0
    requires forall k: nat, u :: s.select(k, u) in ReuseCap(s.pools[0], u).0
    ensures OneCell(s) && HonoursCap(s)
  {
    forall k: nat, u, x | x in s.pools[0] && u[x] == 0
      ensures u[s.select(k, u)] == 0
    {
      assert x in Unused(s.pools[0], u);
    }
  }

  ghost predicate OneReader(s: Setup) {
    OneCell(s) && s.children == 1 && HonoursCap(s)
  }

  lemma {:induction false} OneReaderIsValid(s: Setup)
    requires OneReader(s)
    ensures ValidSetup(s) && OneCell(s) && s.children == 1 && |s.pools| == 1
  {
  }

  /** The single reader's reading so far. */
  function Reading(s: Setup, base: nat, k: nat): seq<string>
    requires ValidSetup(s)
  {
    Own(Play(s, base, k), 0)
  }

  lemma {:induction false} NothingRead(s: Setup, base: nat)
    requires ValidSetup(s)
    ensures Slugs(Play(s, base, 0), None) == Reading(s, base, 0) == []
  {
  }

  /** With one reader the family's history is that reader's own. */
  lemma {:induction false} FamilyIsReader(s: Setup, base: nat, k: nat)
    requires OneReader(s)
    ensures Slugs(Play(s, base, k), None) == Reading(s, base, k) && |Reading(s, base, k)| == k
  {
    hide Slugs, NextDraw, Turn, Play, HonoursCap;
    if k == 0 {
      NothingRead(s, base);
    } else {
      FamilyIsReader(s, base, k - 1);
      PlayNext(s, base, k - 1);
      OnlyReader(k - 1);
      var before := Play(s, base, k - 1);
      var d := NextDraw(s, base, before);
      OneCellDraw(s, base, before);
      SlugsStep(before, d, None);
      SlugsStep(before, d, Some(0));
    }
  }

  /** What the one reader is served at request `k`. */
  function Pick(s: Setup, base: nat, k: nat): string
    requires ValidSetup(s)
  {
    s.select(base + k, multiset(Window(Reading(s, base, k))))
  }

  lemma {:induction false} OneReaderDraw(s: Setup, base: nat, k: nat)
    requires OneReader(s)
    ensures NextDraw(s, base, Play(s, base, k)) == Draw(0, Some(Pick(s, base, k)))
  {
    hide HonoursCap, Slugs, Turn, Play, Window;
    FamilyIsReader(s, base, k);
    OnlyReader(k);
    assert s.cell(base + k) == 0;
  }

  lemma {:induction false} ReadingStep(s: Setup, base: nat, k: nat)
    requires OneReader(s)
    ensures Reading(s, base, k + 1) == Reading(s, base, k) + [Pick(s, base, k)]
  {
    OneReaderDraw(s, base, k);
    PlayNext(s, base, k);
    hide Slugs, NextDraw, Turn, Play, OneReader, Pick;
    SlugsStep(Play(s, base, k), Draw(0, Some(Pick(s, base, k))), Some(0));
  }

  lemma {:induction false} UnusedExists(pool: seq<string>, q: seq<string>)
    requires |q| < |Seen(pool)|
    ensures exists x :: x in pool && multiset(q)[x] == 0
  {
    if forall x :: x in pool ==> x in q {
      RepeatIffFewerSeen(q);
      SubsetCount(Seen(pool), Seen(q));
      assert false;
    }
    var x :| x in pool && x !in q;
    assert multiset(q)[x] == 0;
  }

  /** The next book is not among the last twenty while the pool is larger than the window holds. */
  lemma {:induction false} NextIsFresh(s: Setup, base: nat, k: nat)
    requires OneReader(s) && (k < |Seen(s.pools[0])| || RECENT_WINDOW < |Seen(s.pools[0])|)
    ensures Pick(s, base, k) !in Window(Reading(s, base, k))
  {
    FamilyIsReader(s, base, k);
    hide Reading, Seen;
    var w := Window(Reading(s, base, k));
    UnusedExists(s.pools[0], w);
    var u, pick := multiset(w), Pick(s, base, k);
    assert u[pick] == 0;
    assert pick !in u;
  }

  lemma {:induction false} PrefixKept(q: seq<string>, x: string, j: nat)
    requires j <= |q|
    ensures (q + [x])[..j] == q[..j]
  {
  }

  /** Earlier readings are prefixes of later ones. */
  lemma {:induction false} ReadingPrefix(s: Setup, base: nat, j: nat, k: nat)
    requires OneReader(s) && j <= k
    ensures |Reading(s, base, j)| == j && |Reading(s, base, k)| == k && Reading(s, base, k)[..j] == Reading(s, base, j)
    decreases k
  {
    hide *;
    OneReaderIsValid(s);
    FamilyIsReader(s, base, j);
    FamilyIsReader(s, base, k);
    if j == k {
      assert Reading(s, base, k)[..k] == Reading(s, base, k);
    } else {
      ReadingPrefix(s, base, j, k - 1);
      ReadingStep(s, base, k - 1);
      PrefixKept(Reading(s, base, k - 1), Pick(s, base, k - 1), j);
    }
  }

  lemma {:induction false} InWindow(q: seq<string>, i: nat)
    requires i < |q| && |q| - i <= RECENT_WINDOW
    ensures q[i] in Window(q)
  {
    if |q| > RECENT_WINDOW {
      assert Window(q)[i - (|q| - RECENT_WINDOW)] == q[i];
    }
  }

  /** Two readings at most twenty apart differ, while the pool outnumbers what the
      window shows when the later one is drawn. */
  lemma {:induction false} CapSeparates(s: Setup, base: nat, k: nat, i: nat, j: nat)
    requires OneReader(s) && i < j < k && j - i <= RECENT_WINDOW
    requires j < |Seen(s.pools[0])| || RECENT_WINDOW < |Seen(s.pools[0])|
    ensures |Reading(s, base, k)| == k && Reading(s, base, k)[i] != Reading(s, base, k)[j]
  {
    hide *;
    OneReaderIsValid(s);
    ReadingPrefix(s, base, j + 1, k);
    NextIsFresh(s, base, j);
    var past, all := Reading(s, base, j), Reading(s, base, k);
    FamilyIsReader(s, base, j);
    ReadingStep(s, base, j);
    InWindow(past, i);
    PrefixDiffers(all, past, Pick(s, base, j), i);
  }

  lemma {:induction false} PrefixDiffers(all: seq<string>, past: seq<string>, pick: string, i: nat)
    requires i < |past| < |all| && all[..|past| + 1] == past + [pick] && past[i] != pick
    ensures all[i] != all[|past|]
  {
    var now := all[..|past| + 1];
    assert now[i] == past[i] && now[|past|] == pick;
  }

  /** For one reader under the cap: the first `min(M, 21)` books from a pool of `M` are
      distinct, and with `M >= 21` so are any twenty-one in a row. */
  lemma {:induction false} CapKeepsBooksApart(s: Setup, base: nat, k: nat)
    requires OneReader(s)
    ensures |Reading(s, base, k)| == k
    ensures forall i, j :: 0 <= i < j < k && j < |Seen(s.pools[0])| && j <= RECENT_WINDOW
              ==> Reading(s, base, k)[i] != Reading(s, base, k)[j]
    ensures |Seen(s.pools[0])| > RECENT_WINDOW ==>
              forall i, j :: 0 <= i < j < k && j - i <= RECENT_WINDOW ==> Reading(s, base, k)[i] != Reading(s, base, k)[j]
  {
    FamilyIsReader(s, base, k);
    hide Reading, OneReader, Seen;
    forall i, j | 0 <= i < j < k && j - i <= RECENT_WINDOW
      && (|Seen(s.pools[0])| > RECENT_WINDOW || j < |Seen(s.pools[0])|)
      ensures Reading(s, base, k)[i] != Reading(s, base, k)[j]
    {
      CapSeparates(s, base, k, i, j);
    }
  }

  lemma {:induction false} RoundIsReading(s: Setup, requests: nat, t: nat, i: nat)
    requires OneReader(s)
    ensures var base := Offset(t, Offset(requests, s.children));
            Own(RoundTrace(s, requests, t, i), 0) == Reading(s, base, i + 1)
  {
    hide HonoursCap;
    OnlyReader(i + 1);
  }

  lemma {:induction false} OneRepeater(trace: seq<Draw>)
    ensures Repeaters(trace, 1) == if HasRepeat(Own(trace, 0)) then 1 else 0
  {
    hide Slugs, HasRepeat;
    assert Repeaters(trace, 0) == 0;
  }

  /** One trial within the cap: no repeat. */
  lemma {:induction false} RoundClear(s: Setup, requests: nat, t: nat, i: nat)
    requires OneReader(s) && i < |Seen(s.pools[0])| && i <= RECENT_WINDOW
    ensures Repeaters(RoundTrace(s, requests, t, i), s.children) == 0
  {
    var base := Offset(t, Offset(requests, s.children));
    var trace := RoundTrace(s, requests, t, i);
    hide Offset, RoundTrace, Reading, Repeaters, Seen, Slugs, HonoursCap, ValidSetup;
    CapKeepsBooksApart(s, base, i + 1);
    RoundIsReading(s, requests, t, i);
    OneRepeater(trace);
  }

  /** So the horizon is exact up to the window: no repeat before request `M + 1`, and a
      certain one from there on; larger pools are repeat-free for 21 requests. */
  lemma {:induction false} ExactHorizon(s: Setup, requests: nat, trials: nat, i: nat)
    requires OneReader(s)
    ensures i < |Seen(s.pools[0])| && i <= RECENT_WINDOW ==> RepeatTotal(s, requests, trials, i) == 0
    ensures i >= |Seen(s.pools[0])| ==> RepeatTotal(s, requests, trials, i) == trials
  {
    hide HonoursCap, Repeaters, RoundTrace, Offset, RepeatTotal, Seen;
    if i >= |Seen(s.pools[0])| {
      CertainPastThePool(s, requests, trials, i);
      OnlyReader(trials);
    } else if i <= RECENT_WINDOW {
      if trials > 0 {
        ExactHorizon(s, requests, trials - 1, i);
        TotalStep(s, requests, trials - 1, i);
        RoundClear(s, requests, trials - 1, i);
      } else {
        NoTrials(s, requests, i);
      }
    }
  }
}
