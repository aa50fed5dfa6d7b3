/** Backup runs of `scripts/backup_database.py` day after day against one bucket, whose
    lifecycle rules expire objects in between: what a log of outcomes says is what the
    bucket holds, so the theorems over logs are theorems over runs. */
module BackupDays {
  import opened Collections
  import opened Calendar
  import opened BackupSchedule
  import opened BackupRun

  // ----- expiry -----

  predicate Dies(rules: seq<Rule>, k: Key, today: nat) {
    k.Leg? && exists i :: 0 <= i < |rules| && rules[i].Rule? && rules[i].tier == k.tier && today - k.day >= rules[i].days
  }

  /** The bucket drops what a rule in force has outlived. */
  method Expire(b: Bucket, today: nat)
    modifies b`objects
    ensures b.objects == Expired(old(b.objects), b.rules, today)
  {
    b.objects := Expired(b.objects, b.rules, today);
  }

  function Expired(objects: map<Key, Object>, rules: seq<Rule>, today: nat): map<Key, Object> {
    map k | k in objects && !Dies(rules, k, today) :: objects[k]
  }

  lemma {:induction false} OwnedRulesExpire(p: Policy, k: Key, today: nat)
    requires k.Leg?
    ensures Dies(OwnedRules(p), k, today) <==> today - k.day >= Days(p, k.tier)
  {
    var i := match k.tier case Daily => 0 case Weekly => 1 case Monthly => 2;
    assert OwnedRules(p)[i] == Rule(k.tier, Days(p, k.tier));
  }

  // ----- what a log stands for -----

  /** All three legs of a date are held in a tier. */
  ghost predicate HasSet(objects: map<Key, Object>, tier: Tier, x: nat) {
    forall f: File :: Leg(tier, x, f) in objects
  }

  /** The bucket holds what the log of the days so far says: the dates listed and the sets kept. */
  ghost predicate BucketIs(objects: map<Key, Object>, p: Policy, log: seq<Outcome>)
  {
    && (forall k :: k in objects && k.Leg? ==> k.day < |log|)
    && (|log| > 0 ==>
          && ListedDates(objects) == ListedDays(p, log, |log| - 1)
          && forall tier, x: nat :: Held(p, log, |log| - 1, tier, x) ==> HasSet(objects, tier, x))
  }

  /** What a run leaves of its day. */
  ghost function OutcomeOf(r: Result<seq<Key>>, objects: map<Key, Object>, day: nat): Outcome {
    if r.Ok? || AfterUploads(r.error) then Uploaded
    else if Listed(objects, day) then Partial
    else Nothing
  }

  /** Overnight: what the new day still sees of the old log. */
  lemma {:induction false} AfterExpiry(objects: map<Key, Object>, p: Policy, log: seq<Outcome>)
    requires BucketIs(objects, p, log)
    ensures var left, t := Expired(objects, OwnedRules(p), |log|), |log|;
            && (forall k :: k in left && k.Leg? ==> k.day < t)
            && ListedDates(left) == ListedDays(p, log, t)
            && forall tier, x: nat :: Held(p, log, t, tier, x) ==> HasSet(left, tier, x)
  {
    var left, t := Expired(objects, OwnedRules(p), |log|), |log|;
    forall d
      ensures Listed(left, d) <==> d in ListedDays(p, log, t)
    {
      StillListed(objects, p, log, d);
    }
    forall tier, x: nat | Held(p, log, t, tier, x)
      ensures HasSet(left, tier, x)
    {
      assert Held(p, log, t - 1, tier, x) && HasSet(objects, tier, x);
      forall f: File
        ensures Leg(tier, x, f) in left
      {
        assert Leg(tier, x, f) in objects;
        OwnedRulesExpire(p, Leg(tier, x, f), t);
      }
    }
  }

  lemma {:induction false} StillListed(objects: map<Key, Object>, p: Policy, log: seq<Outcome>, d: int)
    requires BucketIs(objects, p, log)
    ensures Listed(Expired(objects, OwnedRules(p), |log|), d) <==> d in ListedDays(p, log, |log|)
  {
    var left, t := Expired(objects, OwnedRules(p), |log|), |log|;
    assert Listed(left, d) <==> Listed(objects, d) && t - d < p.daily by {
      if k :| k in left && k.Leg? && k.tier == Daily && k.day == d {
        OwnedRulesExpire(p, k, t);
      }
      if k :| k in objects && k.Leg? && k.tier == Daily && k.day == d {
        OwnedRulesExpire(p, k, t);
        assert t - d < p.daily ==> k in left;
      }
    }
    if t > 0 {
      assert Listed(objects, d) <==> d in ListedDays(p, log, t - 1);
    } else {
      assert !Listed(objects, d);
    }
  }

  // ----- one day -----

  /** The day's run moved no leg of another day. */
  ghost predicate OthersKept(left: map<Key, Object>, after: map<Key, Object>, day: nat) {
    forall k: Key :: k.Leg? && k.day != day ==> SameAt(left, after, k)
  }

  lemma {:induction false} RunKeysHaveSets(objects: map<Key, Object>, day: nat)
    requires forall k :: k in RunKeys(day) ==> k in objects
    ensures Listed(objects, day)
    ensures forall tier :: tier in TiersForDate(day) ==> HasSet(objects, tier, day)
  {
    RunKeysAre(day);
    hide RunKeys, TiersForDate;
    assert Leg(Daily, day, Roles) in RunKeys(day);
  }

  /** The day's run extends what the bucket stands for by its outcome. */
  lemma {:induction false} AfterRun(left: map<Key, Object>, after: map<Key, Object>, p: Policy, log: seq<Outcome>,
      outcome: Outcome)
    requires p.daily >= 1 && OthersKept(left, after, |log|)
    requires forall k :: k in left && k.Leg? ==> k.day < |log|
    requires ListedDates(left) == ListedDays(p, log, |log|)
    requires forall tier, x: nat :: Held(p, log, |log|, tier, x) ==> HasSet(left, tier, x)
    requires outcome.Uploaded? ==> forall k :: k in RunKeys(|log|) ==> k in after
    requires !outcome.Uploaded? ==> (outcome.Partial? <==> Listed(after, |log|))
    requires forall k :: k in after && k.Leg? ==> k.day <= |log|
    ensures BucketIs(after, p, log + [outcome])
    ensures ListedDates(after) == ListedDays(p, log + [outcome], |log|)
  {
    var t, more := |log|, log + [outcome];
    hide RunKeys, TiersForDate;
    if outcome.Uploaded? {
      RunKeysHaveSets(after, t);
    }
    forall d
      ensures Listed(after, d) <==> d in ListedDays(p, more, t)
    {
      if d != t {
        OtherDates(left, after, t, d);
        assert Listed(left, d) <==> d in ListedDays(p, log, t);
      }
    }
    assert ListedDates(after) == ListedDays(p, more, t);
    forall tier, x: nat | Held(p, more, t, tier, x)
      ensures HasSet(after, tier, x)
    {
      if x < t {
        assert Held(p, log, t, tier, x) && HasSet(left, tier, x);
        assert forall f: File :: SameAt(left, after, Leg(tier, x, f));
      }
    }
  }

  lemma {:induction false} OtherDates(left: map<Key, Object>, after: map<Key, Object>, day: nat, d: int)
    requires OthersKept(left, after, day) && d != day
    ensures Listed(left, d) <==> Listed(after, d)
  {
    if k :| k in left && k.Leg? && k.tier == Daily && k.day == d {
      assert SameAt(left, after, k);
    }
    if k :| k in after && k.Leg? && k.tier == Daily && k.day == d {
      assert SameAt(left, after, k);
    }
  }

  /** Whatever happened to it, a run leaves the legs of other days alone. */
  lemma {:induction false} FailedUploadKeepsOthers(left: map<Key, Object>, after: map<Key, Object>, w: World, day: nat, n: nat)
    requires n < |RunKeys(day)| && AfterFailedUpload(left, after, w, RunKeys(day), n)
    ensures OthersKept(left, after, day)
  {
    RunKeysAre(day);
    var keys := RunKeys(day);
    hide RunKeys, TiersForDate, Spared;
    forall k: Key | k.Leg? && k.day != day
      ensures SameAt(left, after, k)
    {
      assert k !in keys && keys[n] in keys;
      assert k !in keys[..n];
    }
  }

  /** Overnight expiry and the day's run, from any bucket that stands for the log. */
  method RunDay(b: Bucket, w: World, p: Policy, today: nat, initBucket: bool, ghost log: seq<Outcome>)
    returns (r: Result<seq<Key>>, ghost outcome: Outcome)
    requires ListsTruly(w) && today == |log| && BucketIs(b.objects, p, log)
    requires p.daily >= 1 && b.rules == OwnedRules(p)
    modifies b
    ensures b.rules == OwnedRules(p) && BucketIs(b.objects, p, log + [outcome])
    ensures outcome.Uploaded? <==> r.Ok? || AfterUploads(r.error)
    ensures r.Ok? || r.error.LifecycleUnreadable? || r.error.LifecycleNotWritten? ==>
              Passes(p, log + [outcome], today, initBucket)
    ensures r.Err? && r.error.HistoryRejected? ==> !Passes(p, log + [outcome], today, initBucket)
  {
    ghost var objects := b.objects;
    hide RunKeys, TiersForDate, ListsTruly, BucketIs, Expired, OwnedRules, ListedDays, HistoryPasses,
        CompleteSet, SameAt, Spared;
    AfterExpiry(b.objects, p, log);
    Expire(b, today);
    ghost var left := b.objects;
    r := RunBackup(b, w, p, today, initBucket);
    outcome := OutcomeOf(r, b.objects, today);
    DayKeepsOthers(left, b.objects, w, today, r, initBucket);
    AfterRun(left, b.objects, p, log, outcome);
  }

  /** Every way a run can end, as far as the legs go. */
  lemma {:induction false} DayKeepsOthers(left: map<Key, Object>, after: map<Key, Object>, w: World, day: nat,
      r: Result<seq<Key>>, initBucket: bool)
    requires forall k :: k in left && k.Leg? ==> k.day < day
    requires r.Err? ==> BeforeUploads(r.error) || r.error.UploadFailed? || AfterUploads(r.error)
    requires r.Err? && BeforeUploads(r.error) ==> OnlySentinel(left, after, initBucket)
    requires r.Err? && r.error.UploadFailed? ==> exists n ::
               0 <= n < |RunKeys(day)| && RunKeys(day)[n] == r.error.key && AfterFailedUpload(left, after, w, RunKeys(day), n)
    requires r.Ok? || AfterUploads(r.error) ==>
               CompleteSet(after, w, day) && forall k :: k != Sentinel && k !in RunKeys(day) ==> SameAt(left, after, k)
    ensures OthersKept(left, after, day)
    ensures forall k :: k in after && k.Leg? ==> k.day <= day
    ensures r.Ok? || AfterUploads(r.error) ==> forall k :: k in RunKeys(day) ==> k in after
  {
    RunKeysAre(day);
    hide RunKeys, TiersForDate, AfterFailedUpload;
    if r.Err? && r.error.UploadFailed? {
      var n :| 0 <= n < |RunKeys(day)| && AfterFailedUpload(left, after, w, RunKeys(day), n);
      FailedUploadKeepsOthers(left, after, w, day, n);
    }
    forall k | k in after && k.Leg?
      ensures k.day <= day
    {
      if k.day != day {
        assert SameAt(left, after, k);
      }
    }
  }

  // ----- a schedule of days -----

  /** A day on which the schedule runs, or does not. */
  datatype Day = Idle | RunsOn(world: World, initBucket: bool)

  /** What a day's run reported. */
  datatype Report = NoRun | Reported(result: Result<seq<Key>>)

  /** Day `t` reported what the log says of it and, if it got as far as the history check,
      that check concluded what the log says. */
  ghost predicate Agrees(p: Policy, day: Day, report: Report, log: seq<Outcome>, t: nat)
    requires t < |log|
  {
    match report
    case NoRun => day.Idle? && log[t].Nothing?
    case Reported(r) =>
      && day.RunsOn?
      && (log[t].Uploaded? <==> r.Ok? || AfterUploads(r.error))
      && (r.Ok? || r.error.LifecycleUnreadable? || r.error.LifecycleNotWritten? ==> Passes(p, log, t, day.initBucket))
      && (r.Err? && r.error.HistoryRejected? ==> !Passes(p, log, t, day.initBucket))
  }

  ghost predicate AllAgree(p: Policy, days: seq<Day>, reports: seq<Report>, log: seq<Outcome>) {
    && |reports| == |log| <= |days|
    && forall t :: 0 <= t < |log| ==> Agrees(p, days[t], reports[t], log, t)
  }

  /** A verdict depends on no later day. */
  lemma {:induction false} LaterDaysDoNotMatter(p: Policy, log: seq<Outcome>, next: Outcome, t: nat, initBucket: bool)
    requires t < |log|
    ensures Passes(p, log + [next], t, initBucket) == Passes(p, log, t, initBucket)
  {
    assert ListedDays(p, log + [next], t) == ListedDays(p, log, t);
  }

  lemma {:induction false} AgreeFurther(p: Policy, days: seq<Day>, reports: seq<Report>, log: seq<Outcome>, report: Report,
      next: Outcome)
    requires AllAgree(p, days, reports, log) && |log| < |days|
    requires Agrees(p, days[|log|], report, log + [next], |log|)
    ensures AllAgree(p, days, reports + [report], log + [next])
  {
    hide Passes, AfterUploads;
    forall t | 0 <= t < |log|
      ensures Agrees(p, days[t], reports[t], log + [next], t)
    {
      if days[t].RunsOn? {
        LaterDaysDoNotMatter(p, log, next, t, days[t].initBucket);
      }
    }
  }

  /** A day without a run: only expiry. */
  method IdleDay(b: Bucket, p: Policy, today: nat, ghost log: seq<Outcome>)
    requires today == |log| && BucketIs(b.objects, p, log) && p.daily >= 1 && b.rules == OwnedRules(p)
    modifies b`objects
    ensures BucketIs(b.objects, p, log + [Nothing])
  {
    hide RunKeys, TiersForDate, BucketIs, Expired, OwnedRules, ListedDays;
    AfterExpiry(b.objects, p, log);
    Expire(b, today);
    AfterRun(b.objects, b.objects, p, log, Nothing);
  }

  /** Day after day from a bucket without backups, under the rules of the policy. Every
      call of every day's run may fail in every way the world of that day says. */
  method RunSchedule(b: Bucket, p: Policy, days: seq<Day>) returns (reports: seq<Report>, ghost log: seq<Outcome>)
    requires p.daily >= 1 && b.rules == OwnedRules(p) && forall k :: k in b.objects ==> !k.Leg?
    requires forall t :: 0 <= t < |days| && days[t].RunsOn? ==> ListsTruly(days[t].world)
    modifies b
    ensures |log| == |days| && AllAgree(p, days, reports, log)
    ensures b.rules == OwnedRules(p) && BucketIs(b.objects, p, log)
  {
    reports, log := [], [];
    hide RunKeys, TiersForDate, ListsTruly, Expired, OwnedRules, ListedDays, Passes;
    assert BucketIs(b.objects, p, []);
    hide BucketIs;
    for t := 0 to |days|
      invariant |log| == t && AllAgree(p, days, reports, log)
      invariant b.rules == OwnedRules(p) && BucketIs(b.objects, p, log)
    {
      match days[t]
      case Idle =>
        IdleDay(b, p, t, log);
        AgreeFurther(p, days, reports, log, NoRun, Nothing);
        reports, log := reports + [NoRun], log + [Nothing];
      case RunsOn(world, initBucket) =>
        ghost var outcome;
        var r;
        r, outcome := RunDay(b, world, p, t, initBucket, log);
        AgreeFurther(p, days, reports, log, Reported(r), outcome);
        reports, log := reports + [Reported(r)], log + [outcome];
    }
  }

  /** If every day's run uploads, the bucket holds what the tiers promise: the last daily
      days, and for every day a weekly and a monthly set close before it for as long as
      their retention covers it. */
  lemma {:induction false} TiersHoldTheirPromise(objects: map<Key, Object>, p: Policy, log: seq<Outcome>, x: nat)
    returns (week: nat, month: nat)
    requires BucketIs(objects, p, log) && x < |log| && forall d :: 0 <= d < |log| ==> log[d].Uploaded?
    ensures |log| - 1 - x < p.daily ==> HasSet(objects, Daily, x)
    ensures x >= 6 && |log| - 1 - x + 6 < p.weekly ==> x - 6 <= week <= x && HasSet(objects, Weekly, week)
    ensures x >= 30 && |log| - 1 - x + 30 < p.monthly ==> x - 30 <= month <= x && HasSet(objects, Monthly, month)
  {
    week, month := Coverage(p, log, |log| - 1, x);
  }

  /** The run got as far as a verdict of the history check. */
  predicate Checked(report: Report) {
    report.Reported? && (report.result.Ok? || (AfterUploads(report.result.error) && !report.result.error.ListFailed?))
  }

  predicate Rejected(report: Report) {
    report.Reported? && report.result.Err? && report.result.error.HistoryRejected?
  }

  /** Which runs the history check rejects, over any schedule: exactly those that saw
      nothing left behind one to three days before that the daily retention still holds,
      but for a first run that may find nothing at all. */
  lemma {:induction false} RejectedIff(p: Policy, days: seq<Day>, reports: seq<Report>, log: seq<Outcome>, t: nat)
    requires AllAgree(p, days, reports, log) && t < |log| && Checked(reports[t])
    ensures days[t].RunsOn?
    ensures Rejected(reports[t])
       <==> !(exists x :: Left(p, log, t, x)) && !(days[t].initBucket && ListedDays(p, log, t) <= {t})
  {
    assert Agrees(p, days[t], reports[t], log, t);
    PassesIff(p, log, t);
    AllowingNone(p, log, t);
    hide Passes, Left;
  }

  lemma {:induction false} AllowingNone(p: Policy, log: seq<Outcome>, t: nat)
    ensures Passes(p, log, t, true) <==> Passes(p, log, t, false) || ListedDays(p, log, t) <= {t}
  {
  }

  /** After an outage of three days or more exactly one run is rejected: the first that
      uploads, and none that follows a day with an upload. */
  lemma {:induction false} OneRejectionAfterOutage(p: Policy, days: seq<Day>, reports: seq<Report>, log: seq<Outcome>, t: nat)
    requires AllAgree(p, days, reports, log) && p.daily >= 2 && t + 1 < |log| && log[t].Uploaded?
    requires forall x :: 0 <= x < |log| && 1 <= t - x <= 3 ==> log[x].Nothing?
    ensures Checked(reports[t]) && !days[t].initBucket ==> Rejected(reports[t])
    ensures forall d :: t < d < |log| && log[d - 1].Uploaded? ==> !Rejected(reports[d])
  {
    OneFailureAfterOutage(p, log, t);
    hide Passes, ListedDays;
    assert Agrees(p, days[t], reports[t], log, t);
    forall d | t < d < |log| && log[d - 1].Uploaded?
      ensures !Rejected(reports[d])
    {
      assert Agrees(p, days[d], reports[d], log, d);
      AllowingNone(p, log, d);
    }
  }
}
