/** The civil calendar, one day after another from Thursday 1970-01-01. */
module Calendar {
  import opened Division

  datatype Date = Date(year: nat, month: nat, day: nat)

  predicate Leap(year: nat) {
    year % 4 == 0 && (year % 100 != 0 || year % 400 == 0)
  }

  function DaysIn(year: nat, month: nat): (n: nat)
    ensures 28 <= n <= 31
  {
    if month == 2 then if Leap(year) then 29 else 28
    else if month in {4, 6, 9, 11} then 30
    else 31
  }

  function NextDay(d: Date): Date {
    if d.day < DaysIn(d.year, d.month) then d.(day := d.day + 1)
    else if d.month < 12 then Date(d.year, d.month + 1, 1)
    else Date(d.year + 1, 1, 1)
  }

  function DateOf(t: nat): (d: Date)
    ensures 1 <= d.month <= 12 && 1 <= d.day <= DaysIn(d.year, d.month)
  {
    if t == 0 then Date(1970, 1, 1) else NextDay(DateOf(t - 1))
  }

  /** Monday is 1 and Sunday is 7. */
  function IsoWeekday(t: nat): nat {
    (t + 3) % 7 + 1
  }

  /** The first of the month is at most a month back. */
  lemma {:induction false} FirstOfMonth(t: nat) returns (x: nat)
    requires t >= 30
    ensures t - 30 <= x <= t && DateOf(x).day == 1
  {
    x := t;
    while DateOf(x).day != 1
      invariant x <= t && DateOf(t).day == DateOf(x).day + (t - x)
      invariant t - x <= 30
      decreases x
    {
      assert x > 0;
      assert DateOf(x) == NextDay(DateOf(x - 1));
      x := x - 1;
    }
  }

  lemma SundayBefore(t: nat) returns (x: nat)
    requires t >= 6
    ensures t - 6 <= x <= t && IsoWeekday(x) == 7
  {
    x := t - (t + 4) % 7;
    assert (x + 4) % 7 == 0;
  }

  // ----- the proleptic Gregorian calendar, counted from 0001-01-01 -----

  /** The leap days of the years up to and with this one. */
  function LeapDays(year: nat): nat {
    year / 4 - year / 100 + year / 400
  }

  /** The days of a common year before the month starts. */
  function DaysBefore(month: nat): nat
    requires 1 <= month <= 12
  {
    [0, 31, 59, 90, 120, 151, 181, 212, 243, 273, 304, 334][month - 1]
  }

  /** The day's number, 0001-01-01 being day 1. */
  function Ordinal(d: Date): int
    requires d.year >= 1 && 1 <= d.month <= 12
  {
    365 * (d.year - 1) + LeapDays(d.year - 1)
    + DaysBefore(d.month) + (if d.month > 2 then LeapDays(d.year) - LeapDays(d.year - 1) else 0)
    + d.day
  }

  lemma OneMoreMultiple(n: nat, m: nat)
    requires n >= 1 && m >= 1
    ensures n / m == (n - 1) / m + if n % m == 0 then 1 else 0
  {
    var q, r := (n - 1) / m, (n - 1) % m;
    assert n - 1 == q * m + r;
    if r + 1 < m {
      QuotientIs(n, m, q, r + 1);
    } else {
      assert (q + 1) * m == q * m + m;
      QuotientIs(n, m, q + 1, 0);
    }
  }

  lemma MultipleOfMultiple(n: nat, m: nat, k: nat)
    requires m >= 1 && k >= 1 && n % (m * k) == 0
    ensures n % m == 0
  {
    var q := n / (m * k);
    assert n == q * (m * k) == (q * k) * m;
    QuotientIs(n, m, q * k, 0);
  }

  lemma LeapDay(year: nat)
    requires year >= 1
    ensures LeapDays(year) == LeapDays(year - 1) + if Leap(year) then 1 else 0
  {
    OneMoreMultiple(year, 4);
    OneMoreMultiple(year, 100);
    OneMoreMultiple(year, 400);
    if year % 400 == 0 {
      MultipleOfMultiple(year, 100, 4);
    }
    if year % 100 == 0 {
      MultipleOfMultiple(year, 4, 25);
    }
  }

  lemma MonthLength(year: nat, month: nat)
    requires 1 <= month <= 12
    ensures var leapDay := if month == 2 && Leap(year) then 1 else 0;
            DaysIn(year, month) == leapDay + if month < 12 then DaysBefore(month + 1) - DaysBefore(month) else 31
    ensures DaysBefore(12) == 334 && DaysBefore(1) == 0
  {
    hide Leap;
  }

  lemma {:induction false} NextOrdinal(d: Date)
    requires d.year >= 1 && 1 <= d.month <= 12 && 1 <= d.day <= DaysIn(d.year, d.month)
    ensures NextDay(d).year >= 1 && Ordinal(NextDay(d)) == Ordinal(d) + 1
  {
    LeapDay(d.year);
    MonthLength(d.year, d.month);
    hide LeapDays, Leap, DaysIn, DaysBefore;
  }

  /** The civil calendar law: day `t` after 1970-01-01 has number `t + 719163`, and every
      seventh day from there is a Sunday. */
  lemma {:induction false} CivilCalendar(t: nat)
    ensures DateOf(t).year >= 1 && Ordinal(DateOf(t)) == t + 719163
    ensures IsoWeekday(t) == (Ordinal(DateOf(t)) + 6) % 7 + 1
  {
    hide Ordinal, DaysIn, NextDay, IsoWeekday;
    WeekdayOf(t);
    if t > 0 {
      CivilCalendar(t - 1);
      NextOrdinal(DateOf(t - 1));
    } else {
      FirstOrdinal();
    }
  }

  lemma WeekdayOf(t: nat)
    ensures IsoWeekday(t) == (t + 719163 + 6) % 7 + 1
  {
  }

  lemma FirstOrdinal()
    ensures Ordinal(Date(1970, 1, 1)) == 719163
  {
  }
}

/** Retention over a schedule of daily runs of `scripts/backup_database.py`: which
    sets are still held, and what the history check of a later run concludes. */
module BackupSchedule {
  import opened Calendar

  datatype Tier = Daily | Weekly | Monthly

  /** The tiers a date's backup is written to. */
  function TiersForDate(t: nat): (tiers: seq<Tier>)
    ensures Daily in tiers
    ensures Weekly in tiers <==> IsoWeekday(t) == 7
    ensures Monthly in tiers <==> DateOf(t).day == 1
    ensures forall i, j :: 0 <= i < j < |tiers| ==> tiers[i] != tiers[j]
  {
    [Daily]
    + (if IsoWeekday(t) == 7 then [Weekly] else [])
    + (if DateOf(t).day == 1 then [Monthly] else [])
  }

  /** By the calendar itself: weekly on the days whose number seven divides, which are the
      Sundays, monthly on the first. */
  lemma {:induction false} TiersFollowTheCalendar(t: nat)
    ensures DateOf(t).year >= 1
    ensures Weekly in TiersForDate(t) <==> Ordinal(DateOf(t)) % 7 == 0
    ensures Monthly in TiersForDate(t) <==> DateOf(t).day == 1
    ensures TiersForDate(t)[0] == Daily && |TiersForDate(t)| <= 3
    ensures |TiersForDate(t)| == 3 ==> TiersForDate(t) == [Daily, Weekly, Monthly]
  {
    CivilCalendar(t);
    hide DateOf, Ordinal;
  }

  // ----- the policy -----

  const MIN_DAILY := 3
  const MIN_WEEKLY := 14
  const MIN_MONTHLY := 90
  const MAX_GAP := 3

  datatype Policy = Policy(daily: int, weekly: int, monthly: int)

  datatype Problem = NotPositive(tier: Tier) | BelowFloor(tier: Tier) | NotOrdered

  function CheckDays(tier: Tier, value: int, floor: int, force: bool): seq<Problem> {
    if value < 1 then [NotPositive(tier)]
    else if value < floor && !force then [BelowFloor(tier)]
    else []
  }

  /** The problems that make the policy's constructor raise. */
  function PolicyProblems(p: Policy, force: bool): seq<Problem> {
    CheckDays(Daily, p.daily, MIN_DAILY, force)
    + CheckDays(Weekly, p.weekly, MIN_WEEKLY, force)
    + CheckDays(Monthly, p.monthly, MIN_MONTHLY, force)
    + (if p.daily <= p.weekly <= p.monthly then [] else [NotOrdered])
  }

  function Days(p: Policy, tier: Tier): int {
    match tier
    case Daily => p.daily
    case Weekly => p.weekly
    case Monthly => p.monthly
  }

  /** An accepted policy never lets a coarser tier expire first, and only a forced one
      goes below a floor. */
  lemma {:induction false} AcceptedPolicy(p: Policy, force: bool)
    ensures PolicyProblems(p, force) == [] <==>
              && 1 <= p.daily <= p.weekly <= p.monthly
              && (force || (p.daily >= 3 && p.weekly >= 14 && p.monthly >= 90))
  {
    var a, b := CheckDays(Daily, p.daily, MIN_DAILY, force), CheckDays(Weekly, p.weekly, MIN_WEEKLY, force);
    var c := CheckDays(Monthly, p.monthly, MIN_MONTHLY, force);
    assert |PolicyProblems(p, force)| == |a| + |b| + |c| + if p.daily <= p.weekly <= p.monthly then 0 else 1;
  }

  /** Which problems a policy has, tier by tier. */
  lemma {:induction false} ProblemsAre(p: Policy, force: bool, tier: Tier)
    ensures NotPositive(tier) in PolicyProblems(p, force) <==> Days(p, tier) < 1
    ensures BelowFloor(tier) in PolicyProblems(p, force)
       <==> !force && 1 <= Days(p, tier) < match tier case Daily => 3 case Weekly => 14 case Monthly => 90
    ensures NotOrdered in PolicyProblems(p, force) <==> p.daily > p.weekly || p.weekly > p.monthly
  {
    var a, b := CheckDays(Daily, p.daily, MIN_DAILY, force), CheckDays(Weekly, p.weekly, MIN_WEEKLY, force);
    var c := CheckDays(Monthly, p.monthly, MIN_MONTHLY, force);
    var last := if p.daily <= p.weekly <= p.monthly then [] else [NotOrdered];
    assert forall x :: x in PolicyProblems(p, force) <==> x in a || x in b || x in c || x in last;
  }

  // ----- the schedule -----

  /** What a day left in the bucket: nothing, part of a set that a rollback could not
      remove, or a complete set. A run whose history check fails has still uploaded. */
  datatype Outcome = Nothing | Partial | Uploaded

  /** An object dies when its age reaches its tier's days. */
  predicate Held(p: Policy, log: seq<Outcome>, t: nat, tier: Tier, x: nat) {
    x <= t && x < |log| && log[x].Uploaded? && tier in TiersForDate(x) && t - x < Days(p, tier)
  }

  /** With every day uploaded the tiers cover what their retention promises. */
  lemma {:induction false} Coverage(p: Policy, log: seq<Outcome>, t: nat, x: nat) returns (week: nat, month: nat)
    requires t < |log| && x <= t && forall d :: 0 <= d < |log| ==> log[d].Uploaded?
    ensures t - x < p.daily ==> Held(p, log, t, Daily, x)
    ensures x >= 6 && t - x + 6 < p.weekly ==> x - 6 <= week <= x && Held(p, log, t, Weekly, week)
    ensures x >= 30 && t - x + 30 < p.monthly ==> x - 30 <= month <= x && Held(p, log, t, Monthly, month)
  {
    week, month := 0, 0;
    if x >= 6 {
      week := SundayBefore(x);
    }
    if x >= 30 {
      month := FirstOfMonth(x);
    }
  }

  // ----- the history check -----

  /** The dates under the daily prefix: any surviving object lists its date. */
  function ListedDays(p: Policy, log: seq<Outcome>, t: nat): (days: set<int>)
  {
    set x: int | 0 <= x < |log| && x <= t && !log[x].Nothing? && t - x < p.daily
  }

  datatype Verdict = HistoryOk | NoHistory | TooOld(gap: int)

  /** What the check asks of the dates that are listed besides today's: one at most three
      days old, or none at all where that is allowed. */
  ghost predicate HistoryPasses(listed: set<int>, today: int, allowEmpty: bool) {
    || (listed <= {today} && allowEmpty)
    || exists d :: d in listed && d != today && today - d <= MAX_GAP
  }

  function DatesOf(listed: seq<int>): set<int> {
    set d | d in listed
  }

  /** The check over the dates a listing returned, in any order and with repeats. */
  method CheckHistory(listed: seq<int>, today: int, allowEmpty: bool) returns (v: Verdict)
    ensures v == HistoryOk <==> HistoryPasses(DatesOf(listed), today, allowEmpty)
    ensures v == NoHistory <==> DatesOf(listed) <= {today} && !allowEmpty
    ensures v.TooOld? ==>
              && v.gap > MAX_GAP && today - v.gap in listed
              && forall d :: d in listed && d != today ==> today - d >= v.gap
  {
    var found, newest := false, today;
    for i := 0 to |listed|
      invariant !found ==> forall k :: 0 <= k < i ==> listed[k] == today
      invariant found ==> newest in listed && newest != today
      invariant found ==> forall k :: 0 <= k < i && listed[k] != today ==> listed[k] <= newest
    {
      if listed[i] != today && (!found || listed[i] > newest) {
        found, newest := true, listed[i];
      }
    }
    assert found ==> newest in DatesOf(listed);
    if !found {
      return if allowEmpty then HistoryOk else NoHistory;
    }
    var gap := today - newest;
    v := if gap > MAX_GAP then TooOld(gap) else HistoryOk;
  }

  /** Whether the history check of a run on day `t` passes. */
  ghost predicate Passes(p: Policy, log: seq<Outcome>, t: nat, allowEmpty: bool) {
    HistoryPasses(ListedDays(p, log, t), t, allowEmpty)
  }

  /** Day `x` left something behind that day `t` still sees. */
  predicate Left(p: Policy, log: seq<Outcome>, t: nat, x: int) {
    0 <= x < |log| && !log[x].Nothing? && 1 <= t - x <= MAX_GAP && t - x < p.daily
  }

  /** Exactly when the check of an ordinary run passes: something was left one to
      three days earlier, and inside the daily retention. */
  lemma {:induction false} PassesIff(p: Policy, log: seq<Outcome>, t: nat)
    ensures Passes(p, log, t, false) <==> exists x :: Left(p, log, t, x)
  {
    var listed := ListedDays(p, log, t);
    if Passes(p, log, t, false) {
      var d :| d in listed && d != t && t - d <= MAX_GAP;
      assert Left(p, log, t, d);
    }
    if x :| Left(p, log, t, x) {
      assert x in listed && x != t;
    }
  }

  /** With at least four daily days, and no leftovers of a broken rollback, expiry never
      decides: the check passes when a complete set was uploaded one to three days ago. */
  lemma {:induction false} PassesWhenRecentlyUploaded(p: Policy, log: seq<Outcome>, t: nat)
    requires p.daily >= 4 && forall x :: 0 <= x < |log| ==> !log[x].Partial?
    ensures Passes(p, log, t, false) <==> exists x :: 0 <= x < |log| && 1 <= t - x <= 3 && log[x].Uploaded?
  {
    PassesIff(p, log, t);
    if x :| Left(p, log, t, x) {
      assert log[x].Uploaded?;
    }
    if x :| 0 <= x < |log| && 1 <= t - x <= 3 && log[x].Uploaded? {
      assert Left(p, log, t, x);
    }
  }

  /** After an outage that left nothing for three days, the first run that uploads fails
      the check and, if it is followed by another upload, that one passes; from then on
      every run that follows an upload passes. */
  lemma {:induction false} OneFailureAfterOutage(p: Policy, log: seq<Outcome>, t: nat)
    requires p.daily >= 2 && t + 1 < |log| && log[t].Uploaded?
    requires forall x :: 0 <= x < |log| && 1 <= t - x <= 3 ==> log[x].Nothing?
    ensures !Passes(p, log, t, false)
    ensures forall d :: t < d < |log| && log[d - 1].Uploaded? ==> Passes(p, log, d, false)
  {
    PassesIff(p, log, t);
    forall d | t < d < |log| && log[d - 1].Uploaded?
      ensures Passes(p, log, d, false)
    {
      PassesIff(p, log, d);
      assert Left(p, log, d, d - 1);
    }
  }

  /** The check sees dates, not sets: leftovers of a failed rollback satisfy it even
      though no complete set exists. */
  lemma LeftoversSatisfyTheCheck()
    ensures var p, log := Policy(7, 28, 180), [Partial, Nothing];
            Passes(p, log, 1, false) && forall tier, x :: !Held(p, log, 1, tier, x)
  {
    var p, log := Policy(7, 28, 180), [Partial, Nothing];
    assert 0 in ListedDays(p, log, 1);
  }

  /** When the check's silence means something: a run that passes has a complete set of the
      last three days behind it exactly when one of the days it passes on did upload. */
  lemma {:induction false} PassAttestsSetIff(p: Policy, log: seq<Outcome>, t: nat)
    ensures Passes(p, log, t, false) && (exists x: nat :: 1 <= t - x <= MAX_GAP && Held(p, log, t, Daily, x))
       <==> exists x :: Left(p, log, t, x) && log[x].Uploaded?
  {
    PassesIff(p, log, t);
    if x: nat :| 1 <= t - x <= MAX_GAP && Held(p, log, t, Daily, x) {
      assert Left(p, log, t, x);
    }
    if x :| Left(p, log, t, x) && log[x].Uploaded? {
      assert Held(p, log, t, Daily, x);
    }
  }

  /** At the accepted floor of three daily days, two missed nights already fail the
      check; with four they are tolerated. */
  lemma {:induction false} FloorDoesNotTolerateTwoMisses(log: seq<Outcome>)
    requires log == [Uploaded, Nothing, Nothing]
    ensures PolicyProblems(Policy(3, 14, 90), false) == []
    ensures !Passes(Policy(3, 14, 90), log, 3, false) && Passes(Policy(4, 14, 90), log, 3, false)
  {
    PassesIff(Policy(3, 14, 90), log, 3);
    PassesIff(Policy(4, 14, 90), log, 3);
    assert Left(Policy(4, 14, 90), log, 3, 0);
  }

  lemma {:induction false} LoneUpload(p: Policy, gap: nat)
    requires gap >= 1
    ensures var log := [Uploaded] + seq(gap - 1, _ => Nothing);
            Passes(p, log, gap, false) <==> gap <= 3 && gap < p.daily
  {
    var log := [Uploaded] + seq(gap - 1, _ => Nothing);
    PassesIff(p, log, gap);
    assert Left(p, log, gap, 0) <==> gap <= MAX_GAP && gap < p.daily;
  }

  /** Which gaps a policy tolerates: a run that follows an upload `gap` days back passes,
      whatever happened in between, exactly when the gap is at most three days and below
      the daily retention. The promised three days need four daily days. */
  lemma {:induction false} GapToleratedIff(p: Policy, gap: nat)
    requires gap >= 1
    ensures (forall log: seq<Outcome>, t :: gap <= t <= |log| && log[t - gap].Uploaded? ==> Passes(p, log, t, false))
       <==> gap <= 3 && gap < p.daily
  {
    if gap <= MAX_GAP && gap < p.daily {
      forall log: seq<Outcome>, t | gap <= t <= |log| && log[t - gap].Uploaded?
        ensures Passes(p, log, t, false)
      {
        PassesIff(p, log, t);
        assert Left(p, log, t, t - gap);
      }
    } else {
      LoneUpload(p, gap);
      assert ([Uploaded] + seq(gap - 1, _ => Nothing))[0].Uploaded?;
    }
  }
}
