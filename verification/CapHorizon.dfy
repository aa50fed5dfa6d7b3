/** How far the reuse cap keeps one reader from a repeat, exactly. Two selectors that
    honour the cap meet the bounds: one repeats as early as the window lets it, the other
    reads the whole pool first. */
module CapHorizon {

  import opened Collections
  import opened Exposure
  import opened ExposureCurves
  import opened Division

  /** One reader, one pool, and a selector that takes the first book the filter leaves. */
  function Eager(pool: seq<string>): (s: Setup)
    requires pool != []
    ensures OneReader(s) && ValidSetup(s) && s.pools == [pool]
  {
    var s := OnePool(pool, (k: nat, usage: multiset<string>) => ReuseCap(pool, usage).0[0], 1, true);
    FilteredDrawHonoursCap(s);
    s
  }

  /** The book that call number `k` comes round to. */
  function InTurn(pool: seq<string>, k: nat): string
    requires pool != []
  {
    pool[k % |pool|]
  }

  /** One reader, one pool, and a selector that goes round the pool while it may. */
  function Cyclic(pool: seq<string>): (s: Setup)
    requires pool != []
    ensures OneReader(s) && ValidSetup(s) && s.pools == [pool]
  {
    var s := OnePool(pool, (k: nat, usage: multiset<string>) => Choice(pool, k, usage), 1, true);
    FilteredDrawHonoursCap(s);
    s
  }

  function Choice(pool: seq<string>, k: nat, usage: multiset<string>): string
    requires pool != []
  {
    if usage[InTurn(pool, k)] == 0 then InTurn(pool, k) else ReuseCap(pool, usage).0[0]
  }

  lemma {:induction false} FirstLeft(pool: seq<string>, usage: multiset<string>, j: nat)
    requires j < |pool| && usage[pool[j]] == 0 && forall i :: 0 <= i < j ==> usage[pool[i]] > 0
    ensures ReuseCap(pool, usage).0[0] == pool[j]
  {
    if j > 0 {
      FirstLeft(pool[1..], usage, j - 1);
    }
  }

  lemma {:induction false} NotBefore(pool: seq<string>, k: nat)
    requires !HasRepeat(pool) && k < |pool|
    ensures multiset(pool[..k])[pool[k]] == 0
  {
    assert pool[k] !in pool[..k];
  }

  lemma {:induction false} EagerPick(pool: seq<string>, base: nat, k: nat)
    requires pool != []
    ensures Pick(Eager(pool), base, k) == ReuseCap(pool, multiset(Window(Reading(Eager(pool), base, k)))).0[0]
  {
    hide Reading, ReuseCap, HonoursCap;
  }

  /** Within the window the first book left is the next of the pool. */
  lemma {:induction false} NextInOrder(pool: seq<string>, k: nat)
    requires !HasRepeat(pool) && k < |pool| && k <= RECENT_WINDOW
    ensures ReuseCap(pool, multiset(Window(pool[..k]))).0[0] == pool[k]
  {
    NotBefore(pool, k);
    var usage := multiset(pool[..k]);
    forall i | 0 <= i < k
      ensures usage[pool[i]] > 0
    {
      assert pool[..k][i] == pool[i];
    }
    FirstLeft(pool, usage, k);
  }

  /** One book further the window has lost sight of the first. */
  lemma {:induction false} BackToTheFirst(pool: seq<string>)
    requires !HasRepeat(pool) && |pool| > RECENT_WINDOW
    ensures ReuseCap(pool, multiset(Window(pool[..RECENT_WINDOW + 1]))).0[0] == pool[0]
  {
    var w := Window(pool[..RECENT_WINDOW + 1]);
    assert w == pool[1..RECENT_WINDOW + 1];
    assert pool[0] !in w;
    FirstLeft(pool, multiset(w), 0);
  }

  lemma {:induction false} TakeOneMore(pool: seq<string>, k: nat)
    requires k < |pool|
    ensures pool[..k] + [pool[k]] == pool[..k + 1]
  {
  }

  /** Up to the window and one more, the eager reader takes the pool in order. */
  lemma {:induction false} EagerReads(pool: seq<string>, base: nat, k: nat)
    requires pool != [] && !HasRepeat(pool) && k <= |pool| && k <= RECENT_WINDOW + 1
    ensures Reading(Eager(pool), base, k) == pool[..k]
  {
    hide *;
    if k == 0 {
      NothingRead(Eager(pool), base);
    } else {
      EagerReads(pool, base, k - 1);
      ReadingStep(Eager(pool), base, k - 1);
      EagerPick(pool, base, k - 1);
      NextInOrder(pool, k - 1);
      TakeOneMore(pool, k - 1);
    }
  }

  lemma {:induction false} RepeatsFrom(all: seq<string>, n: nat)
    requires 0 < n < |all| && all[..n + 1][n] == all[..n + 1][0]
    ensures HasRepeat(all)
  {
    assert all[0] == all[n];
  }

  /** At request 22 the window has lost sight of the first book, and it comes again. */
  lemma {:induction false} EagerRepeats(pool: seq<string>, base: nat, k: nat)
    requires !HasRepeat(pool) && |pool| > RECENT_WINDOW && k > RECENT_WINDOW + 1
    ensures HasRepeat(Reading(Eager(pool), base, k))
  {
    hide HasRepeat, Reading, ReuseCap, OneReader, ValidSetup, Eager, Pick, Window;
    var s, n := Eager(pool), RECENT_WINDOW + 1;
    EagerReads(pool, base, n);
    ReadingStep(s, base, n);
    EagerPick(pool, base, n);
    BackToTheFirst(pool);
    ReadingPrefix(s, base, n + 1, k);
    RepeatsFrom(Reading(s, base, k), n);
  }

  lemma NoReturnWithin(m: nat, a: nat, d: nat)
    requires 0 < d < m
    ensures a % m != (a + d) % m
  {
    var q, r := a / m, a % m;
    if r + d < m {
      QuotientIs(a + d, m, q, r + d);
    } else {
      QuotientIs(a + d, m, q + 1, r + d - m);
    }
  }

  lemma {:induction false} TurnsApart(pool: seq<string>, a: nat, d: nat)
    requires !HasRepeat(pool) && 0 < d < |pool|
    ensures InTurn(pool, a) != InTurn(pool, a + d)
  {
    NoReturnWithin(|pool|, a, d);
  }

  lemma {:induction false} CyclicPick(pool: seq<string>, base: nat, k: nat)
    requires pool != []
    requires InTurn(pool, base + k) !in Window(Reading(Cyclic(pool), base, k))
    ensures Pick(Cyclic(pool), base, k) == InTurn(pool, base + k)
  {
    hide Reading, ReuseCap, HonoursCap, InTurn, Window;
    assert multiset(Window(Reading(Cyclic(pool), base, k)))[InTurn(pool, base + k)] == 0;
  }

  ghost predicate GoesRound(reading: seq<string>, pool: seq<string>, base: nat) {
    pool != [] && forall i :: 0 <= i < |reading| ==> reading[i] == InTurn(pool, base + i)
  }

  lemma {:induction false} NextNotYetRead(reading: seq<string>, pool: seq<string>, base: nat)
    requires !HasRepeat(pool) && |reading| < |pool| && GoesRound(reading, pool, base)
    ensures InTurn(pool, base + |reading|) !in Window(reading)
  {
    hide InTurn, HasRepeat;
    var next := InTurn(pool, base + |reading|);
    forall i | 0 <= i < |reading|
      ensures reading[i] != next
    {
      TurnsApart(pool, base + i, |reading| - i);
    }
  }

  lemma {:induction false} GoesOn(reading: seq<string>, pool: seq<string>, base: nat)
    requires GoesRound(reading, pool, base)
    ensures GoesRound(reading + [InTurn(pool, base + |reading|)], pool, base)
  {
    hide InTurn;
  }

  lemma {:induction false} RoundStarts(pool: seq<string>, base: nat)
    requires pool != []
    ensures GoesRound([], pool, base)
  {
  }

  /** The cyclic reader meets every book of the pool before any again. */
  lemma {:induction false} CyclicReads(pool: seq<string>, base: nat, k: nat)
    requires pool != [] && !HasRepeat(pool) && k <= |pool|
    ensures |Reading(Cyclic(pool), base, k)| == k
    ensures GoesRound(Reading(Cyclic(pool), base, k), pool, base)
  {
    hide *;
    FamilyIsReader(Cyclic(pool), base, k);
    if k == 0 {
      NothingRead(Cyclic(pool), base);
      RoundStarts(pool, base);
    } else {
      CyclicReads(pool, base, k - 1);
      var past := Reading(Cyclic(pool), base, k - 1);
      NextNotYetRead(past, pool, base);
      CyclicPick(pool, base, k - 1);
      ReadingStep(Cyclic(pool), base, k - 1);
      GoesOn(past, pool, base);
    }
  }

  lemma {:induction false} RoundHasNoRepeat(reading: seq<string>, pool: seq<string>, base: nat)
    requires !HasRepeat(pool) && |reading| <= |pool| && GoesRound(reading, pool, base)
    ensures !HasRepeat(reading)
  {
    hide InTurn;
    forall i, j | 0 <= i < j < |reading|
      ensures reading[i] != reading[j]
    {
      TurnsApart(pool, base + i, j - i);
    }
  }

  lemma {:induction false} CyclicNeverRepeats(pool: seq<string>, base: nat, k: nat)
    requires pool != [] && !HasRepeat(pool) && k <= |pool|
    ensures !HasRepeat(Reading(Cyclic(pool), base, k))
  {
    hide *;
    CyclicReads(pool, base, k);
    RoundHasNoRepeat(Reading(Cyclic(pool), base, k), pool, base);
  }

  lemma {:induction false} WholePool(pool: seq<string>)
    requires !HasRepeat(pool)
    ensures |Seen(pool)| == |pool|
  {
    RepeatIffFewerSeen(pool);
  }

  lemma {:induction false} PastThePool(s: Setup, base: nat, k: nat)
    requires OneReader(s) && k > |Seen(s.pools[0])|
    ensures HasRepeat(Reading(s, base, k))
  {
    hide Seen, HasRepeat, HonoursCap;
    FamilyIsReader(s, base, k);
    ServedFromPool(s, base, k, Some(0));
    SeenWithin(Reading(s, base, k), s.pools[0]);
    RepeatIffFewerSeen(Reading(s, base, k));
  }

  lemma {:induction false} ClearWithin(s: Setup, base: nat, k: nat)
    requires OneReader(s) && k <= |Seen(s.pools[0])| && k <= RECENT_WINDOW + 1
    ensures !HasRepeat(Reading(s, base, k))
  {
    CapKeepsBooksApart(s, base, k);
    hide OneReader, Reading, Seen;
  }

  /** The documented horizon, corrected: from a pool of `M` different books the cap
      guarantees `k` different ones exactly when `k <= min(M, 21)`. */
  lemma {:induction false} GuaranteedDistinctIff(pool: seq<string>, base: nat, k: nat)
    requires pool != [] && !HasRepeat(pool)
    ensures (forall s :: OneReader(s) && s.pools == [pool] ==> !HasRepeat(Reading(s, base, k)))
       <==> k <= |pool| && k <= RECENT_WINDOW + 1
  {
    WholePool(pool);
    if k <= |pool| && k <= RECENT_WINDOW + 1 {
      forall s | OneReader(s) && s.pools == [pool]
        ensures !HasRepeat(Reading(s, base, k))
      {
        ClearWithin(s, base, k);
      }
    } else if k > |pool| {
      PastThePool(Eager(pool), base, k);
    } else {
      EagerRepeats(pool, base, k);
    }
  }

  ghost predicate AlwaysRepeats(s: Setup, k: nat)
    requires ValidSetup(s)
  {
    forall base: nat :: HasRepeat(Reading(s, base, k))
  }

  ghost predicate NeverRepeats(s: Setup, k: nat)
    requires ValidSetup(s)
  {
    forall base: nat :: !HasRepeat(Reading(s, base, k))
  }

  /** When every trial ends the same way, so does the total. */
  lemma {:induction false} TotalWhen(s: Setup, requests: nat, trials: nat, i: nat, repeats: bool)
    requires OneReader(s) && (if repeats then AlwaysRepeats(s, i + 1) else NeverRepeats(s, i + 1))
    ensures RepeatTotal(s, requests, trials, i) == if repeats then trials else 0
  {
    hide HonoursCap, Repeaters, RoundTrace, Offset, RepeatTotal, HasRepeat, Reading;
    if trials == 0 {
      NoTrials(s, requests, i);
    } else {
      TotalWhen(s, requests, trials - 1, i, repeats);
      TotalStep(s, requests, trials - 1, i);
      RoundIsReading(s, requests, trials - 1, i);
      OneRepeater(RoundTrace(s, requests, trials - 1, i));
    }
  }

  lemma {:induction false} RateWhen(s: Setup, trials: nat, requests: nat, i: nat, repeats: bool)
    requires OneReader(s) && trials > 0 && (if repeats then AlwaysRepeats(s, i + 1) else NeverRepeats(s, i + 1))
    ensures RepeatRate(s, trials, requests, i) == if repeats then 1.0 else 0.0
  {
    hide HonoursCap, Rate, RepeatTotal, HasRepeat, Reading;
    TotalWhen(s, requests, trials, i, repeats);
    OnlyReader(trials);
    RateRange(trials, trials);
  }

  lemma {:induction false} EagerAlways(pool: seq<string>, k: nat)
    requires !HasRepeat(pool) && |pool| > RECENT_WINDOW && k > RECENT_WINDOW + 1
    ensures AlwaysRepeats(Eager(pool), k)
  {
    hide HasRepeat, Reading;
    forall base: nat
      ensures HasRepeat(Reading(Eager(pool), base, k))
    {
      EagerRepeats(pool, base, k);
    }
  }

  lemma {:induction false} CyclicNever(pool: seq<string>, k: nat)
    requires pool != [] && !HasRepeat(pool) && k <= |pool|
    ensures NeverRepeats(Cyclic(pool), k)
  {
    hide HasRepeat, Reading;
    forall base: nat
      ensures !HasRepeat(Reading(Cyclic(pool), base, k))
    {
      CyclicNeverRepeats(pool, base, k);
    }
  }

  /** Past the window and within the pool the cap alone decides nothing: one selector that
      honours it has repeated for certain and another certainly has not. */
  lemma {:induction false} CapAloneDecidesNothing(pool: seq<string>, trials: nat, requests: nat, i: nat)
    requires !HasRepeat(pool) && RECENT_WINDOW < i < |pool| && trials > 0
    ensures RepeatRate(Eager(pool), trials, requests, i) == 1.0
    ensures RepeatRate(Cyclic(pool), trials, requests, i) == 0.0
  {
    hide *;
    EagerAlways(pool, i + 1);
    CyclicNever(pool, i + 1);
    RateWhen(Eager(pool), trials, requests, i, true);
    RateWhen(Cyclic(pool), trials, requests, i, false);
  }

  /** The repeat rate of one reader under the cap is zero for certain exactly within the
      first `min(M, 21)` requests, and one for certain exactly after `M`. */
  lemma {:induction false} CertainRatesIff(pool: seq<string>, trials: nat, requests: nat, i: nat)
    requires pool != [] && !HasRepeat(pool) && trials > 0
    ensures (forall s :: OneReader(s) && s.pools == [pool] ==> RepeatRate(s, trials, requests, i) == 0.0)
       <==> i < |pool| && i <= RECENT_WINDOW
    ensures (forall s :: OneReader(s) && s.pools == [pool] ==> RepeatRate(s, trials, requests, i) == 1.0)
       <==> i >= |pool|
  {
    WholePool(pool);
    hide RepeatRate, HonoursCap;
    forall s | OneReader(s) && s.pools == [pool]
      ensures i < |pool| && i <= RECENT_WINDOW ==> RepeatRate(s, trials, requests, i) == 0.0
      ensures i >= |pool| ==> RepeatRate(s, trials, requests, i) == 1.0
    {
      CapMakesRatesExact(s, trials, requests, i);
    }
    if RECENT_WINDOW < i < |pool| {
      CapAloneDecidesNothing(pool, trials, requests, i);
    } else {
      CapMakesRatesExact(Eager(pool), trials, requests, i);
    }
  }

  // ----- the smallest sufficient pool of one reader -----

  /** `sufficient` is the acceptance test run for one reader under the cap on the padded pool. */
  ghost predicate TestsOneReader(base: seq<string>, trials: nat, target: nat, setup: nat -> Setup, sufficient: nat -> bool)
    requires trials > 0 && target > 0
  {
    forall size: nat :: |base| <= size ==>
      && OneReader(setup(size)) && setup(size).pools == [PadPool(base, size)]
      && (sufficient(size) <==> Sufficient(setup(size), trials, target))
  }

  lemma {:induction false} BoundHolds(s: Setup, trials: nat, target: nat)
    requires OneReader(s) && trials > 0 && target > 0
    requires target <= RECENT_WINDOW + 1 || |Seen(s.pools[0])| < target
    ensures ValidSetup(s) && (Sufficient(s, trials, target) <==> |Seen(s.pools[0])| >= target)
  {
    hide HonoursCap, RepeatRate, Seen;
    if target <= RECENT_WINDOW + 1 {
      TightForOneReader(s, trials, target);
    } else {
      SmallPoolFails(s, trials, target);
    }
  }

  /** Beyond the window a selector that honours the cap rejects pools of any size. */
  lemma {:induction false} EagerRejects(pool: seq<string>, trials: nat, target: nat)
    requires !HasRepeat(pool) && RECENT_WINDOW + 1 < target <= |pool| && trials > 0
    ensures !Sufficient(Eager(pool), trials, target)
  {
    hide RepeatRate, OneReader, ValidSetup;
    CapAloneDecidesNothing(pool, trials, target, target - 1);
  }

  /** The pigeonhole bound is the answer, whatever the selector does under the cap, exactly
      for targets of at most 21 and for pools below the target. */
  lemma {:induction false} BoundIsTightIff(pool: seq<string>, trials: nat, target: nat)
    requires pool != [] && !HasRepeat(pool) && trials > 0 && target > 0
    ensures (forall s :: OneReader(s) && s.pools == [pool] ==> (Sufficient(s, trials, target) <==> |pool| >= target))
       <==> target <= RECENT_WINDOW + 1 || |pool| < target
  {
    WholePool(pool);
    hide HonoursCap, Sufficient, Seen, HasRepeat;
    if target <= RECENT_WINDOW + 1 || |pool| < target {
      forall s | OneReader(s) && s.pools == [pool]
        ensures Sufficient(s, trials, target) <==> |pool| >= target
      {
        BoundHolds(s, trials, target);
      }
    } else {
      EagerRejects(pool, trials, target);
    }
  }

  /** Then the test is a threshold at the target, which makes it upward closed. */
  lemma {:induction false} TestIsThreshold(
      base: seq<string>, trials: nat, target: nat, setup: nat -> Setup, sufficient: nat -> bool, size: nat)
    requires !HasRepeat(base) && forall i: nat :: Synthetic(i) !in base
    requires trials > 0 && 0 < target <= RECENT_WINDOW + 1 && TestsOneReader(base, trials, target, setup, sufficient)
    requires |base| <= size
    ensures sufficient(size) <==> size >= target
  {
    hide HonoursCap, Sufficient, Seen, Synthetic, HasRepeat;
    PaddedPoolIsFull(base, size);
    TightForOneReader(setup(size), trials, target);
  }

  /** The documented answer: for one reader and a target within the window and one, the
      smallest sufficient pool is the larger of the real pool and the target. */
  method RequiredForOneReader(
      base: seq<string>, trials: nat, target: nat, ghost setup: nat -> Setup, sufficient: nat -> bool)
    returns (r: Result<Option<nat>>)
    requires !HasRepeat(base) && forall i: nat :: Synthetic(i) !in base
    requires trials > 0 && 0 < target <= RECENT_WINDOW + 1 && TestsOneReader(base, trials, target, setup, sufficient)
    ensures r == Ok(Some(Greatest(|base|, target)))
    ensures forall size :: |base| <= size < Greatest(|base|, target) ==> !sufficient(size)
    ensures forall high :: UpwardClosed(sufficient, |base|, high)
  {
    hide HonoursCap, Sufficient, Synthetic, HasRepeat, TestsOneReader;
    forall size: nat | |base| <= size
      ensures sufficient(size) <==> size >= target
    {
      TestIsThreshold(base, trials, target, setup, sufficient, size);
    }
    r := RequiredPoolSize(|base|, target, trials, sufficient);
  }
}
