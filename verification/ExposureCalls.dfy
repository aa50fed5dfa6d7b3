/** The simulated runs of `scripts/analyze_sibling_exposure.py` call by call: which call to
    the selector serves whom, from which pool and over which books, and what the totals count. */
module ExposureCalls {

  import opened Collections
  import opened Exposure

  // ----- every draw of a run -----

  /** The books served so far, oldest first: to anybody, or to one child. */
  function Books(trace: seq<Draw>, family: bool, child: nat): seq<string> {
    if trace == [] then []
    else
      var rest := Books(trace[1..], family, child);
      if trace[0].slug.Some? && (family || trace[0].child == child) then [trace[0].slug.value] + rest else rest
  }

  function LastTwenty(books: seq<string>): (last: seq<string>) {
    if |books| > 20 then books[|books| - 20..] else books
  }

  lemma {:induction false} OneMoreBook(trace: seq<Draw>, d: Draw, family: bool, child: nat)
    ensures Books(trace + [d], family, child) == Books(trace, family, child)
      + if d.slug.Some? && (family || d.child == child) then [d.slug.value] else []
  {
    if trace == [] {
      assert [d][1..] == [];
    } else {
      assert (trace + [d])[1..] == trace[1..] + [d];
      OneMoreBook(trace[1..], d, family, child);
    }
  }

  lemma {:induction false} BooksAreSlugs(trace: seq<Draw>, family: bool, child: nat)
    ensures Books(trace, family, child) == Slugs(trace, if family then None else Some(child))
  {
    if trace != [] {
      var before, d := trace[..|trace| - 1], trace[|trace| - 1];
      assert trace == before + [d];
      BooksAreSlugs(before, family, child);
      OneMoreBook(before, d, family, child);
    }
  }

  lemma {:induction false} PlayedThrough(s: Setup, base: nat, j: nat, k: nat)
    requires ValidSetup(s) && j < k
    ensures Play(s, base, k)[..j] == Play(s, base, j) && Play(s, base, k)[j] == NextDraw(s, base, Play(s, base, j))
  {
    hide NextDraw, ValidSetup;
    if j < k - 1 {
      PlayedThrough(s, base, j, k - 1);
      assert Play(s, base, k)[..j] == Play(s, base, k - 1)[..j];
    }
  }

  /** One draw: the children take turns, the call's number picks the pool and goes to the
      selector, and the selector sees the last twenty books of the scope. An empty pool
      serves nobody. */
  ghost predicate DrawnBy(s: Setup, call: nat, before: seq<Draw>, d: Draw)
    requires ValidSetup(s)
  {
    && d.child == |before| % s.children
    && d.slug == (if s.pools[s.cell(call)] == [] then None
                  else Some(s.select(call, multiset(LastTwenty(Books(before, s.familyScope, d.child))))))
  }

  lemma {:induction false} NextIsDrawn(s: Setup, base: nat, trace: seq<Draw>)
    requires ValidSetup(s)
    ensures DrawnBy(s, base + |trace|, trace, NextDraw(s, base, trace))
  {
    var child := |trace| % s.children;
    BooksAreSlugs(trace, s.familyScope, child);
    hide Books, Slugs;
    assert Window(Slugs(trace, if s.familyScope then None else Some(child))) == LastTwenty(Books(trace, s.familyScope, child));
    hide Window, LastTwenty;
  }

  /** Every draw of every run, from its place alone. */
  lemma {:induction false} EveryDraw(s: Setup, base: nat, j: nat, k: nat)
    requires ValidSetup(s) && j < k
    ensures DrawnBy(s, base + j, Play(s, base, k)[..j], Play(s, base, k)[j])
  {
    hide *;
    PlayedThrough(s, base, j, k);
    NextIsDrawn(s, base, Play(s, base, j));
  }

  /** Where in a trial the request `i` of child `c` stands. */
  function PlaceOf(i: nat, c: nat, children: nat): nat {
    i * children + c
  }

  /** The calls of the whole simulation, numbered through. */
  function CallOf(t: nat, i: nat, c: nat, requests: nat, children: nat): nat {
    (t * requests + i) * children + c
  }

  lemma CallNumber(t: nat, i: nat, c: nat, requests: nat, children: nat, last: nat)
    requires c < children && i <= last
    ensures Offset(t, Offset(requests, children)) + PlaceOf(i, c, children) == CallOf(t, i, c, requests, children)
    ensures PlaceOf(i, c, children) < Offset(last + 1, children)
    ensures PlaceOf(i, c, children) % children == c
  {
    TurnOf(i, c, children);
    OffsetRises(i + 1, last + 1, children);
    assert t * (requests * children) == (t * requests) * children;
    assert (t * requests + i) * children == (t * requests) * children + i * children;
  }

  /** In trial `t` the request `i` of child `c` is call `(t * requests + i) * children + c`, so
      no two trials share a call. */
  lemma {:induction false} EveryCall(s: Setup, requests: nat, t: nat, last: nat, i: nat, c: nat)
    requires ValidSetup(s) && i <= last && c < s.children
    ensures PlaceOf(i, c, s.children) < |RoundTrace(s, requests, t, last)|
    ensures var trace, j := RoundTrace(s, requests, t, last), PlaceOf(i, c, s.children);
            trace[j].child == c && DrawnBy(s, CallOf(t, i, c, requests, s.children), trace[..j], trace[j])
  {
    var j, base := PlaceOf(i, c, s.children), Offset(t, Offset(requests, s.children));
    hide *;
    RoundIs(s, requests, t, last);
    CallNumber(t, i, c, requests, s.children, last);
    EveryDraw(s, base, j, Offset(last + 1, s.children));
    ChildOf(s, base + j, RoundTrace(s, requests, t, last)[..j], RoundTrace(s, requests, t, last)[j]);
  }

  lemma {:induction false} ChildOf(s: Setup, call: nat, before: seq<Draw>, d: Draw)
    requires ValidSetup(s) && DrawnBy(s, call, before, d)
    ensures d.child == |before| % s.children
  {
  }

  lemma OffsetRises(a: nat, b: nat, children: nat)
    requires a <= b
    ensures Offset(a, children) <= Offset(b, children)
  {
    assert b * children == a * children + (b - a) * children;
  }

  // ----- what the totals count -----

  lemma {:induction false} NextTurn(s: Setup, base: nat, k: nat, child: nat)
    requires ValidSetup(s)
    ensures Made(Play(s, base, k + 1), child) == Made(Play(s, base, k), child) + if Turn(k, s.children) == child then 1 else 0
  {
    hide ValidSetup, Turn;
    assert Play(s, base, k + 1)[..k] == Play(s, base, k);
  }

  /** After `n` whole rounds and `t` turns, who has asked how often. */
  lemma {:induction false} AskedCount(s: Setup, base: nat, n: nat, t: nat, child: nat)
    requires ValidSetup(s) && t <= s.children && child < s.children
    ensures Made(Play(s, base, Offset(n, s.children) + t), child) == n + if child < t then 1 else 0
    decreases n, t
  {
    hide *;
    if t > 0 {
      AskedCount(s, base, n, t - 1, child);
      TurnOf(n, t - 1, s.children);
      NextTurn(s, base, Offset(n, s.children) + (t - 1), child);
    } else if n > 0 {
      AskedCount(s, base, n - 1, s.children, child);
      OffsetStep(n - 1, s.children);
    } else {
      OffsetStep(0, s.children);
      NobodyAsked(s, base, child);
    }
  }

  lemma {:induction false} NobodyAsked(s: Setup, base: nat, child: nat)
    requires ValidSetup(s)
    ensures Made(Play(s, base, 0), child) == 0
  {
  }

  /** One reader's requests go to books new to them, to books they had, or to nobody. */
  lemma {:induction false} ReaderSplits(trace: seq<Draw>, child: nat)
    ensures |Seen(Own(trace, child))| + Misses(trace, child) <= Made(trace, child)
    ensures |Seen(Own(trace, child))| + Misses(trace, child) == Made(trace, child) <==> !HasRepeat(Own(trace, child))
  {
    MadeSplits(trace, child);
    RepeatIffFewerSeen(Own(trace, child));
    hide Made, Own, Misses, Seen, HasRepeat;
  }

  lemma {:induction false} RoundSplits(trace: seq<Draw>, n: nat, each: nat)
    requires forall c :: 0 <= c < n ==> Made(trace, c) == each
    ensures Distinct(trace, n) + Unserved(trace, n) <= Offset(n, each)
    ensures Distinct(trace, n) + Unserved(trace, n) == Offset(n, each) <==> Repeaters(trace, n) == 0
  {
    hide Made, Own, Misses, Seen, HasRepeat;
    if n > 0 {
      RoundSplits(trace, n - 1, each);
      ReaderSplits(trace, n - 1);
      OffsetStep(n - 1, each);
    }
    hide *;
    if n == 0 {
      NoReaders(trace);
      OffsetStep(0, each);
    } else {
      OneMoreReader(trace, n - 1);
    }
  }

  lemma {:induction false} NoReaders(trace: seq<Draw>)
    ensures Distinct(trace, 0) == 0 == Unserved(trace, 0) && Repeaters(trace, 0) == 0
  {
  }

  lemma {:induction false} OneMoreReader(trace: seq<Draw>, n: nat)
    ensures Distinct(trace, n + 1) == Distinct(trace, n) + |Seen(Own(trace, n))|
    ensures Unserved(trace, n + 1) == Unserved(trace, n) + Misses(trace, n)
    ensures Repeaters(trace, n + 1) == Repeaters(trace, n) + if HasRepeat(Own(trace, n)) then 1 else 0
  {
    hide Seen, Own, Misses, HasRepeat;
  }

  lemma {:induction false} RoundIs(s: Setup, requests: nat, t: nat, i: nat)
    requires ValidSetup(s)
    ensures RoundTrace(s, requests, t, i)
         == Play(s, Offset(t, Offset(requests, s.children)), Offset(i + 1, s.children) + 0)
  {
    hide Play, Offset, ValidSetup;
  }

  lemma {:induction false} MadeEach(s: Setup, requests: nat, t: nat, i: nat, c: nat)
    requires ValidSetup(s) && c < s.children
    ensures Made(RoundTrace(s, requests, t, i), c) == i + 1
  {
    hide *;
    RoundIs(s, requests, t, i);
    AskedCount(s, Offset(t, Offset(requests, s.children)), i + 1, 0, c);
  }

  /** New books and unserved requests fill a stretch of requests only without repeats. */
  ghost predicate Splits(trace: seq<Draw>, n: nat, all: nat) {
    && Distinct(trace, n) + Unserved(trace, n) <= all
    && (Distinct(trace, n) + Unserved(trace, n) == all <==> Repeaters(trace, n) == 0)
  }

  lemma {:induction false} TrialSplits(s: Setup, requests: nat, t: nat, i: nat)
    requires ValidSetup(s)
    ensures Splits(RoundTrace(s, requests, t, i), s.children, Offset(s.children, i + 1))
  {
    hide ValidSetup, Made, Distinct, Unserved, Repeaters, Offset, RoundTrace;
    forall c | 0 <= c < s.children
      ensures Made(RoundTrace(s, requests, t, i), c) == i + 1
    {
      MadeEach(s, requests, t, i, c);
    }
    RoundSplits(RoundTrace(s, requests, t, i), s.children, i + 1);
  }

  /** By request `i + 1` the readers of all the trials have asked so often in all; the requests
      that brought a new book and those that brought none make up all of them exactly as long
      as the repeat total is zero. */
  lemma {:induction false} TotalsSplit(s: Setup, requests: nat, trials: nat, i: nat)
    requires ValidSetup(s)
    ensures var found, all := DistinctTotal(s, requests, trials, i) + UnservedTotal(s, requests, trials, i),
                              Offset(trials, Offset(s.children, i + 1));
            found <= all && (found == all <==> RepeatTotal(s, requests, trials, i) == 0)
  {
    hide RepeatTotal, DistinctTotal, UnservedTotal, Repeaters, Distinct, Unserved, RoundTrace, Offset, ValidSetup;
    if trials == 0 {
      NothingCounted(s, requests, i);
      OffsetStep(0, Offset(s.children, i + 1));
    } else {
      TotalsSplit(s, requests, trials - 1, i);
      TrialSplits(s, requests, trials - 1, i);
      OffsetStep(trials - 1, Offset(s.children, i + 1));
      OneMoreTrial(s, requests, trials - 1, i);
    }
  }

  lemma {:induction false} NothingCounted(s: Setup, requests: nat, i: nat)
    requires ValidSetup(s)
    ensures DistinctTotal(s, requests, 0, i) == 0 == UnservedTotal(s, requests, 0, i) && RepeatTotal(s, requests, 0, i) == 0
  {
  }

  lemma {:induction false} OneMoreTrial(s: Setup, requests: nat, t: nat, i: nat)
    requires ValidSetup(s)
    ensures var trace := RoundTrace(s, requests, t, i);
            && DistinctTotal(s, requests, t + 1, i) == DistinctTotal(s, requests, t, i) + Distinct(trace, s.children)
            && UnservedTotal(s, requests, t + 1, i) == UnservedTotal(s, requests, t, i) + Unserved(trace, s.children)
            && RepeatTotal(s, requests, t + 1, i) == RepeatTotal(s, requests, t, i) + Repeaters(trace, s.children)
  {
    hide RoundTrace, Distinct, Unserved, Repeaters;
  }
}
