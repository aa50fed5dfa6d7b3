/** Overlapping runs of `scripts/backup_database.py` against one bucket: object keys
    are derived from the date, so every run writes the same keys, and a failed run
    rolls its own uploads back under an ETag guard. Any interleaving is allowed,
    down to the gap between a rollback's head and its delete. */
module BackupInterleaving {
  import opened Collections

  type RunId = nat
  type Key = string

  /** What the bucket holds under one key. The writer is not visible to a run. */
  datatype Object = Object(etag: nat, writer: RunId)

  datatype Upload = Upload(key: Key, etag: Option<nat>)

  /** `left` counts the uploads the rollback has still to look at, newest first. */
  datatype Phase =
    | Uploading
    | Done
    | RollingBack(left: nat)
    | Deleting(left: nat)      // the guard has passed, the delete has not been sent
    | Failed

  /** `spared` collects the keys whose head or delete raised. */
  datatype Run = Run(keys: seq<Key>, written: seq<Upload>, phase: Phase, spared: set<Key>)

  datatype State = State(bucket: map<Key, Object>, runs: map<RunId, Run>, nextEtag: nat)

  datatype Event =
    | Put(run: RunId, reported: bool)                   // the response may carry no ETag
    | PutRaises(run: RunId, landed: bool)
    | Finish(run: RunId)
    | Head(run: RunId, raises: bool)
    | Delete(run: RunId, raises: bool, landed: bool)
    | GiveUp(run: RunId)
    | Expire(key: Key)                                  // the bucket's lifecycle rules

  function Write(s: State, r: RunId, key: Key): State {
    s.(bucket := s.bucket[key := Object(s.nextEtag, r)], nextEtag := s.nextEtag + 1)
  }

  function Update(s: State, r: RunId, run: Run): State {
    s.(runs := s.runs[r := run])
  }

  predicate CanPut(s: State, r: RunId) {
    r in s.runs && s.runs[r].phase.Uploading? && |s.runs[r].written| < |s.runs[r].keys|
  }

  function NextKey(s: State, r: RunId): Key
    requires CanPut(s, r)
  {
    s.runs[r].keys[|s.runs[r].written|]
  }

  predicate InRollback(run: Run) {
    (run.phase.RollingBack? || run.phase.Deleting?) && 0 < run.phase.left <= |run.written|
  }

  /** The upload a rollback is looking at. */
  function Current(run: Run): Upload
    requires InRollback(run)
  {
    run.written[run.phase.left - 1]
  }

  function Examine(s: State, run: Run, raises: bool): Run
    requires InRollback(run)
  {
    var u, left := Current(run), run.phase.left;
    if u.etag.None? then run.(phase := Deleting(left))
    else if raises then run.(phase := RollingBack(left - 1), spared := run.spared + {u.key})
    else if u.key !in s.bucket || s.bucket[u.key].etag != u.etag.value then run.(phase := RollingBack(left - 1))
    else run.(phase := Deleting(left))
  }

  function Apply(s: State, e: Event): Option<State> {
    match e
    case Put(r, reported) =>
      if !CanPut(s, r) then None
      else
        var run, key := s.runs[r], NextKey(s, r);
        var u := Upload(key, if reported then Some(s.nextEtag) else None);
        Some(Update(Write(s, r, key), r, run.(written := run.written + [u])))
    case PutRaises(r, landed) =>
      if !CanPut(s, r) then None
      else
        var run := s.runs[r];
        var s' := if landed then Write(s, r, NextKey(s, r)) else s;
        Some(Update(s', r, run.(phase := RollingBack(|run.written|))))
    case Finish(r) =>
      if r in s.runs && s.runs[r].phase.Uploading? && |s.runs[r].written| == |s.runs[r].keys|
      then Some(Update(s, r, s.runs[r].(phase := Done))) else None
    case Head(r, raises) =>
      if r in s.runs && s.runs[r].phase.RollingBack? && InRollback(s.runs[r])
      then Some(Update(s, r, Examine(s, s.runs[r], raises))) else None
    case Delete(r, raises, landed) =>
      if r in s.runs && s.runs[r].phase.Deleting? && InRollback(s.runs[r]) then
        var run := s.runs[r];
        var key := Current(run).key;
        var s' := if raises && !landed then s else s.(bucket := s.bucket - {key});
        Some(Update(s', r, run.(phase := RollingBack(run.phase.left - 1),
                                spared := if raises then run.spared + {key} else run.spared)))
      else None
    case GiveUp(r) =>
      if r in s.runs && s.runs[r].phase == RollingBack(0)
      then Some(Update(s, r, s.runs[r].(phase := Failed))) else None
    case Expire(key) => Some(s.(bucket := s.bucket - {key}))
  }

  ghost predicate Init(s: State) {
    && (forall r :: r in s.runs ==> s.runs[r].written == [] && s.runs[r].phase == Uploading && s.runs[r].spared == {})
    && forall k :: k in s.bucket ==> s.bucket[k].etag < s.nextEtag && s.bucket[k].writer !in s.runs
  }

  ghost predicate Behaviour(states: seq<State>, events: seq<Event>) {
    && |states| == |events| + 1
    && Init(states[0])
    && forall i :: 0 <= i < |events| ==> Apply(states[i], events[i]) == Some(states[i + 1])
  }

  // ----- what every step keeps -----

  /** An ETag the run was told stands for the object it wrote under that key, if it
      stands for anything. */
  ghost predicate OwnEtag(s: State, r: RunId, u: Upload) {
    u.etag.Some? ==>
      && u.etag.value < s.nextEtag
      && forall k :: k in s.bucket && s.bucket[k].etag == u.etag.value ==> k == u.key && s.bucket[k].writer == r
  }

  ghost predicate Survives(s: State, u: Upload) {
    u.etag.Some? && u.key in s.bucket && s.bucket[u.key].etag == u.etag.value
  }

  /** How many uploads of a run its rollback has not passed yet. */
  function Pending(run: Run): nat {
    match run.phase
    case RollingBack(left) => left
    case Deleting(left) => left
    case Failed => 0
    case _ => |run.written|
  }

  ghost predicate RunOk(s: State, r: RunId, run: Run) {
    && (run.phase.RollingBack? || run.phase.Deleting? ==> run.phase.left <= |run.written|)
    && (run.phase.Deleting? ==> run.phase.left > 0)
    && (forall i :: 0 <= i < |run.written| ==> OwnEtag(s, r, run.written[i]))
    && forall i :: Pending(run) <= i < |run.written| ==>
         Survives(s, run.written[i]) ==> run.written[i].key in run.spared
  }

  ghost predicate Inv(s: State) {
    && (forall k :: k in s.bucket ==> s.bucket[k].etag < s.nextEtag)
    && forall r :: r in s.runs ==> RunOk(s, r, s.runs[r])
  }

  lemma {:induction false} WriteKeeps(s: State, r: RunId, key: Key)
    requires Inv(s)
    ensures Inv(Write(s, r, key))
  {
    var s' := Write(s, r, key);
    forall q | q in s'.runs
      ensures RunOk(s', q, s'.runs[q])
    {
      var run := s.runs[q];
      assert RunOk(s, q, run);
      forall i | 0 <= i < |run.written|
        ensures OwnEtag(s', q, run.written[i])
        ensures Survives(s', run.written[i]) ==> Survives(s, run.written[i])
      {
        assert OwnEtag(s, q, run.written[i]);
      }
    }
  }

  lemma {:induction false} RemovalKeeps(s: State, key: Key)
    requires Inv(s)
    ensures Inv(s.(bucket := s.bucket - {key}))
  {
    var s' := s.(bucket := s.bucket - {key});
    forall q | q in s'.runs
      ensures RunOk(s', q, s'.runs[q])
    {
      var run := s.runs[q];
      assert RunOk(s, q, run);
      forall i | 0 <= i < |run.written|
        ensures OwnEtag(s', q, run.written[i])
        ensures Survives(s', run.written[i]) ==> Survives(s, run.written[i])
      {
        assert OwnEtag(s, q, run.written[i]);
      }
    }
  }

  lemma {:induction false} UpdateKeeps(s: State, r: RunId, run: Run)
    requires Inv(s) && RunOk(s, r, run)
    ensures Inv(Update(s, r, run))
  {
    var s' := Update(s, r, run);
    forall q | q in s'.runs
      ensures RunOk(s', q, s'.runs[q])
    {
      var was := if q == r then run else s.runs[q];
      assert RunOk(s, q, was);
      forall i | 0 <= i < |was.written|
        ensures OwnEtag(s', q, was.written[i])
        ensures Survives(s', was.written[i]) ==> Survives(s, was.written[i])
      {
        assert OwnEtag(s, q, was.written[i]);
      }
    }
  }

  lemma {:induction false} PutKeeps(s: State, r: RunId, reported: bool)
    requires Inv(s) && CanPut(s, r)
    ensures Inv(Apply(s, Put(r, reported)).value)
  {
    var key, run := NextKey(s, r), s.runs[r];
    var s', u := Write(s, r, key), Upload(key, if reported then Some(s.nextEtag) else None);
    WriteKeeps(s, r, key);
    assert RunOk(s', r, run);
    var more := run.(written := run.written + [u]);
    assert OwnEtag(s', r, u);
    assert RunOk(s', r, more) by {
      forall i | 0 <= i < |more.written|
        ensures OwnEtag(s', r, more.written[i])
      {
        assert i < |run.written| ==> OwnEtag(s', r, run.written[i]);
      }
    }
    UpdateKeeps(s', r, more);
  }

  /** A rollback step that looks at one upload and moves on. */
  lemma {:induction false} MoveOn(s: State, r: RunId, run: Run, spared: set<Key>)
    requires RunOk(s, r, run) && InRollback(run) && run.spared <= spared
    requires Survives(s, Current(run)) ==> Current(run).key in spared
    ensures RunOk(s, r, run.(phase := RollingBack(run.phase.left - 1), spared := spared))
  {
    forall i | run.phase.left - 1 <= i < |run.written| && Survives(s, run.written[i])
      ensures run.written[i].key in spared
    {
      if i >= run.phase.left {
        assert run.written[i].key in run.spared;
      }
    }
  }

  lemma {:induction false} DeleteKeeps(s: State, e: Event)
    requires Inv(s) && e.Delete? && Apply(s, e).Some?
    ensures Inv(Apply(s, e).value)
  {
    var run := s.runs[e.run];
    var key := Current(run).key;
    var s' := if e.raises && !e.landed then s else s.(bucket := s.bucket - {key});
    RemovalKeeps(s, key);
    var spared := if e.raises then run.spared + {key} else run.spared;
    assert RunOk(s', e.run, run);
    MoveOn(s', e.run, run, spared);
    UpdateKeeps(s', e.run, run.(phase := RollingBack(run.phase.left - 1), spared := spared));
  }

  lemma {:induction false} HeadKeeps(s: State, e: Event)
    requires Inv(s) && e.Head? && Apply(s, e).Some?
    ensures Inv(Apply(s, e).value)
  {
    var run := s.runs[e.run];
    var next := Examine(s, run, e.raises);
    assert RunOk(s, e.run, run);
    if next.phase.RollingBack? {
      MoveOn(s, e.run, run, next.spared);
    }
    UpdateKeeps(s, e.run, next);
  }

  lemma {:induction false} StepKeeps(s: State, e: Event)
    requires Inv(s) && Apply(s, e).Some?
    ensures Inv(Apply(s, e).value)
  {
    match e
    case Put(r, reported) => PutKeeps(s, r, reported);
    case PutRaises(r, landed) =>
      var run := s.runs[r];
      var s' := if landed then Write(s, r, NextKey(s, r)) else s;
      WriteKeeps(s, r, NextKey(s, r));
      assert RunOk(s', r, run);
      UpdateKeeps(s', r, run.(phase := RollingBack(|run.written|)));
    case Finish(r) =>
      assert RunOk(s, r, s.runs[r]);
      UpdateKeeps(s, r, s.runs[r].(phase := Done));
    case Head(_, _) => HeadKeeps(s, e);
    case Delete(_, _, _) => DeleteKeeps(s, e);
    case GiveUp(r) =>
      assert RunOk(s, r, s.runs[r]);
      UpdateKeeps(s, r, s.runs[r].(phase := Failed));
    case Expire(key) => RemovalKeeps(s, key);
  }

  lemma {:induction false} InvAlways(states: seq<State>, events: seq<Event>, i: nat)
    requires Behaviour(states, events) && i <= |events|
    ensures Inv(states[i])
  {
    if i > 0 {
      InvAlways(states, events, i - 1);
      assert Apply(states[i - 1], events[i - 1]) == Some(states[i]);
      StepKeeps(states[i - 1], events[i - 1]);
    }
  }

  // ----- what a rollback deletes -----

  function RunOf(e: Event): Option<RunId> {
    match e
    case Put(r, _) => Some(r)
    case PutRaises(r, _) => Some(r)
    case Finish(r) => Some(r)
    case Head(r, _) => Some(r)
    case Delete(r, _, _) => Some(r)
    case GiveUp(r) => Some(r)
    case Expire(_) => None
  }

  /** The event writes an object under the key, whether or not the writer hears of it. */
  predicate PutsOn(s: State, e: Event, key: Key) {
    (e.Put? || (e.PutRaises? && e.landed)) && CanPut(s, e.run) && NextKey(s, e.run) == key
  }

  ghost predicate PutBetween(states: seq<State>, events: seq<Event>, i: nat, j: nat, key: Key)
    requires Behaviour(states, events) && j <= |events|
  {
    exists p :: i < p < j && PutsOn(states[p], events[p], key)
  }

  /** One event's effect on one key. */
  lemma {:induction false} StepOnKey(s: State, e: Event, key: Key)
    requires Apply(s, e).Some?
    ensures var s' := Apply(s, e).value;
            key in s'.bucket ==>
              if PutsOn(s, e, key) then s'.bucket[key] == Object(s.nextEtag, e.run)
              else key in s.bucket && s'.bucket[key] == s.bucket[key]
  {
  }

  lemma {:induction false} WriterBetween(states: seq<State>, events: seq<Event>, i: nat, j: nat, r: RunId, key: Key)
    requires Behaviour(states, events) && i < j <= |events|
    requires key in states[i + 1].bucket ==> states[i + 1].bucket[key].writer == r
    requires forall p :: i < p < j && PutsOn(states[p], events[p], key) ==> events[p].run != r
    ensures key in states[j].bucket ==>
              (states[j].bucket[key].writer != r <==> PutBetween(states, events, i, j, key))
    decreases j
  {
    if j > i + 1 {
      WriterBetween(states, events, i, j - 1, r, key);
      assert Apply(states[j - 1], events[j - 1]) == Some(states[j]);
      StepOnKey(states[j - 1], events[j - 1], key);
      hide Apply, PutsOn;
      if PutsOn(states[j - 1], events[j - 1], key) {
        assert PutBetween(states, events, i, j, key);
      } else if p :| i < p < j && PutsOn(states[p], events[p], key) {
        assert p < j - 1;
      }
    }
  }

  /** At event `j`, run `r` sends the delete that its head at event `i` allowed. */
  ghost predicate DeleteAfterHead(states: seq<State>, events: seq<Event>, i: nat, j: nat, r: RunId)
    requires Behaviour(states, events)
  {
    && i < j < |events|
    && events[i] == Head(r, false) && events[j].Delete? && events[j].run == r
    && (forall p :: i < p < j ==> RunOf(events[p]) != Some(r))
    && r in states[i].runs && InRollback(states[i].runs[r]) && Current(states[i].runs[r]).etag.Some?
    && r in states[i + 1].runs && states[i + 1].runs[r].phase.Deleting?
  }

  lemma {:induction false} RunUntouched(states: seq<State>, events: seq<Event>, i: nat, j: nat, r: RunId)
    requires Behaviour(states, events) && i < j <= |events| && r in states[i + 1].runs
    requires forall p :: i < p < j ==> RunOf(events[p]) != Some(r)
    ensures r in states[j].runs && states[j].runs[r] == states[i + 1].runs[r]
    decreases j
  {
    if j > i + 1 {
      RunUntouched(states, events, i, j - 1, r);
    }
  }

  /** Between its head and its delete a run stands still, and only puts change the writer. */
  lemma {:induction false} HeldSinceHead(states: seq<State>, events: seq<Event>, i: nat, j: nat, r: RunId)
    requires Behaviour(states, events) && DeleteAfterHead(states, events, i, j, r)
    ensures var key := Current(states[i].runs[r]).key;
            && r in states[j].runs && InRollback(states[j].runs[r]) && Current(states[j].runs[r]).key == key
            && (key in states[j].bucket ==>
                 (states[j].bucket[key].writer != r <==> PutBetween(states, events, i, j, key)))
  {
    var u := Current(states[i].runs[r]);
    InvAlways(states, events, i);
    assert Apply(states[i], events[i]) == Some(states[i + 1]);
    assert RunOk(states[i], r, states[i].runs[r]);
    assert OwnEtag(states[i], r, u);
    RunUntouched(states, events, i, j, r);
    forall p | i < p < j && PutsOn(states[p], events[p], u.key)
      ensures events[p].run != r
    {
      assert RunOf(events[p]) == Some(events[p].run);
    }
    WriterBetween(states, events, i, j, r, u.key);
  }

  /** Event `j` is a delete; its run is looking at an upload whose ETag it was told. */
  ghost predicate SendsGuarded(states: seq<State>, events: seq<Event>, j: nat)
    requires Behaviour(states, events)
  {
    && j < |events| && events[j].Delete?
    && var r := events[j].run;
       r in states[j].runs && InRollback(states[j].runs[r]) && Current(states[j].runs[r]).etag.Some?
  }

  /** A run gets to the point of deleting by a head that its guard passed, and then waits. */
  lemma {:induction false} DeletingSinceHead(states: seq<State>, events: seq<Event>, j: nat, r: RunId) returns (i: nat)
    requires Behaviour(states, events) && j <= |events|
    requires r in states[j].runs && states[j].runs[r].phase.Deleting?
    ensures i < j && events[i].Head? && events[i].run == r && r in states[i].runs && InRollback(states[i].runs[r])
    ensures Current(states[i].runs[r]).etag.Some? ==> !events[i].raises
    ensures forall p :: i < p < j ==> RunOf(events[p]) != Some(r)
    ensures r in states[i + 1].runs && states[i + 1].runs[r] == states[j].runs[r]
    ensures states[i + 1].runs[r] == states[i].runs[r].(phase := Deleting(states[i].runs[r].phase.left))
  {
    assert j > 0;
    assert Apply(states[j - 1], events[j - 1]) == Some(states[j]);
    if RunOf(events[j - 1]) == Some(r) {
      i := j - 1;
    } else {
      i := DeletingSinceHead(states, events, j - 1, r);
    }
  }

  /** In any interleaving every guarded delete has exactly one head before it, and takes
      another run's object exactly when a put to that key landed between the two. */
  lemma {:induction false} GuardedDelete(states: seq<State>, events: seq<Event>, j: nat) returns (i: nat)
    requires Behaviour(states, events) && SendsGuarded(states, events, j)
    ensures var r := events[j].run;
            && DeleteAfterHead(states, events, i, j, r)
            && (forall h: nat :: DeleteAfterHead(states, events, h, j, r) ==> h == i)
            && var key := Current(states[j].runs[r]).key;
               key in states[j].bucket ==>
                 (states[j].bucket[key].writer != r <==> PutBetween(states, events, i, j, key))
  {
    var r := events[j].run;
    assert Apply(states[j], events[j]) == Some(states[j + 1]);
    i := DeletingSinceHead(states, events, j, r);
    assert DeleteAfterHead(states, events, i, j, r);
    HeldSinceHead(states, events, i, j, r);
    forall h: nat | DeleteAfterHead(states, events, h, j, r)
      ensures h == i
    {
      assert RunOf(events[h]) == RunOf(events[i]) == Some(r);
    }
  }

  ghost predicate EveryPutReports(events: seq<Event>) {
    forall p :: 0 <= p < |events| && events[p].Put? ==> events[p].reported
  }

  /** No put lands on a key between a rollback's head for it and its delete. */
  ghost predicate NoPutInAnyGap(states: seq<State>, events: seq<Event>)
    requires Behaviour(states, events)
  {
    forall i: nat, j: nat, r: RunId :: DeleteAfterHead(states, events, i, j, r)
      ==> !PutBetween(states, events, i, j, Current(states[i].runs[r]).key)
  }

  lemma {:induction false} UploadsKnowTheirEtag(states: seq<State>, events: seq<Event>, j: nat, r: RunId)
    requires Behaviour(states, events) && EveryPutReports(events) && j <= |events| && r in states[j].runs
    ensures forall n :: 0 <= n < |states[j].runs[r].written| ==> states[j].runs[r].written[n].etag.Some?
  {
    if j > 0 {
      assert Apply(states[j - 1], events[j - 1]) == Some(states[j]);
      UploadsKnowTheirEtag(states, events, j - 1, r);
    }
  }

  /** So when every put reports an ETag and no put lands in such a gap, no rollback of any
      run, anywhere in the interleaving, deletes an object it was not the last to write. */
  lemma {:induction false} RollbackDeletesOnlyItsOwn(states: seq<State>, events: seq<Event>)
    requires Behaviour(states, events) && EveryPutReports(events) && NoPutInAnyGap(states, events)
    ensures forall j, k :: 0 <= j < |events| && events[j].Delete? && k in states[j].bucket && k !in states[j + 1].bucket
              ==> states[j].bucket[k].writer == events[j].run
  {
    forall j, k | 0 <= j < |events| && events[j].Delete? && k in states[j].bucket && k !in states[j + 1].bucket
      ensures states[j].bucket[k].writer == events[j].run
    {
      var r := events[j].run;
      assert Apply(states[j], events[j]) == Some(states[j + 1]);
      UploadsKnowTheirEtag(states, events, j, r);
      var i := GuardedDelete(states, events, j);
      HeldSinceHead(states, events, i, j, r);
    }
  }

  // ----- when an uploaded object survives -----

  /** The event takes whatever the key holds away, by a delete that reaches the bucket. */
  predicate DeletesFrom(s: State, e: Event, key: Key) {
    && e.Delete? && !(e.raises && !e.landed)
    && e.run in s.runs && InRollback(s.runs[e.run]) && Current(s.runs[e.run]).key == key
  }

  /** Event `p` does no harm to the object that run `r` put under `key` at event `i`: it
      neither puts nor expires the key, and deletes from it only as another run's rollback
      whose guard looked at the key after that put. */
  ghost predicate Harmless(states: seq<State>, events: seq<Event>, i: nat, p: nat, r: RunId, key: Key)
    requires Behaviour(states, events) && p < |events|
  {
    && !PutsOn(states[p], events[p], key)
    && events[p] != Expire(key)
    && (DeletesFrom(states[p], events[p], key) ==>
          events[p].run != r && exists h :: i < h && DeleteAfterHead(states, events, h, p, events[p].run))
  }

  /** Nothing has harmed what run `r` put at event `i`. */
  ghost predicate Unharmed(states: seq<State>, events: seq<Event>, i: nat, j: nat, r: RunId)
    requires Behaviour(states, events) && i < j <= |events| && CanPut(states[i], r)
  {
    forall p :: i < p < j ==> Harmless(states, events, i, p, r, NextKey(states[i], r))
  }

  ghost predicate Holds(s: State, key: Key, stored: Object) {
    key in s.bucket && s.bucket[key] == stored
  }

  lemma {:induction false} EtagsOnlyGrow(states: seq<State>, events: seq<Event>, i: nat, j: nat)
    requires Behaviour(states, events) && i <= j <= |events|
    ensures states[i].nextEtag <= states[j].nextEtag
    decreases j
  {
    if i < j {
      assert Apply(states[j - 1], events[j - 1]) == Some(states[j]);
      EtagsOnlyGrow(states, events, i, j - 1);
    }
  }

  /** An issued object stays where it is exactly as long as nothing puts, expires or deletes there. */
  lemma {:induction false} StaysPut(s: State, e: Event, key: Key, stored: Object)
    requires Apply(s, e).Some? && stored.etag < s.nextEtag
    ensures Holds(Apply(s, e).value, key, stored)
       <==> Holds(s, key, stored) && !PutsOn(s, e, key) && e != Expire(key) && !DeletesFrom(s, e, key)
  {
  }

  /** A guard that looks at another run's object does not let the delete through. */
  lemma {:induction false} GuardSpares(states: seq<State>, events: seq<Event>, h: nat, p: nat, r: RunId, stored: Object)
    requires Behaviour(states, events) && p < |events| && events[p].Delete?
    requires DeleteAfterHead(states, events, h, p, events[p].run)
    requires Holds(states[h], Current(states[h].runs[events[p].run]).key, stored) && stored.writer == r
    ensures events[p].run == r
  {
    var q := events[p].run;
    InvAlways(states, events, h);
    assert Apply(states[h], events[h]) == Some(states[h + 1]);
    assert RunOk(states[h], q, states[h].runs[q]);
    assert OwnEtag(states[h], q, Current(states[h].runs[q]));
  }

  lemma {:induction false} HarmlessDeletesNothing(states: seq<State>, events: seq<Event>, i: nat, p: nat, r: RunId,
      key: Key, stored: Object)
    requires Behaviour(states, events) && i < p < |events| && stored.writer == r
    requires forall h :: i < h <= p ==> Holds(states[h], key, stored)
    requires Harmless(states, events, i, p, r, key)
    ensures !DeletesFrom(states[p], events[p], key)
  {
    if DeletesFrom(states[p], events[p], key) {
      var q := events[p].run;
      var h :| i < h && DeleteAfterHead(states, events, h, p, q);
      HeldSinceHead(states, events, h, p, q);
      GuardSpares(states, events, h, p, r, stored);
      assert false;
    }
  }

  /** What the ETag guard is for: the object a run has put is in place at a later state
      exactly when every event since was harmless to it. */
  lemma {:induction false} ObjectSurvivesIff(states: seq<State>, events: seq<Event>, i: nat, j: nat, r: RunId)
    requires Behaviour(states, events) && i < j <= |events|
    requires events[i] == Put(r, true) && CanPut(states[i], r)
    ensures Holds(states[j], NextKey(states[i], r), Object(states[i].nextEtag, r)) <==> Unharmed(states, events, i, j, r)
    decreases j
  {
    var key, stored := NextKey(states[i], r), Object(states[i].nextEtag, r);
    assert Apply(states[i], events[i]) == Some(states[i + 1]);
    if j > i + 1 {
      var p := j - 1;
      ObjectSurvivesIff(states, events, i, p, r);
      EtagsOnlyGrow(states, events, i + 1, p);
      assert Apply(states[p], events[p]) == Some(states[j]);
      StaysPut(states[p], events[p], key, stored);
      hide Apply, PutsOn, DeletesFrom;
      if Holds(states[p], key, stored) && Harmless(states, events, i, p, r, key) {
        forall h | i < h <= p
          ensures Holds(states[h], key, stored)
        {
          ObjectSurvivesIff(states, events, i, h, r);
        }
        HarmlessDeletesNothing(states, events, i, p, r, key, stored);
      }
    }
  }

  // ----- when a finished set survives -----

  /** Puts append to what the run has written, and nothing takes back. */
  lemma {:induction false} PutIsWritten(states: seq<State>, events: seq<Event>, i: nat, j: nat, r: RunId)
    requires Behaviour(states, events) && i < j <= |events| && events[i] == Put(r, true) && CanPut(states[i], r)
    ensures r in states[j].runs && |states[i].runs[r].written| < |states[j].runs[r].written|
    ensures states[j].runs[r].written[|states[i].runs[r].written|]
         == Upload(NextKey(states[i], r), Some(states[i].nextEtag))
    decreases j
  {
    assert Apply(states[j - 1], events[j - 1]) == Some(states[j]);
    if j > i + 1 {
      PutIsWritten(states, events, i, j - 1, r);
    }
  }

  /** Every upload a run recorded comes from a put, which reported what was recorded. */
  lemma {:induction false} WrittenByPut(states: seq<State>, events: seq<Event>, j: nat, r: RunId, n: nat) returns (i: nat)
    requires Behaviour(states, events) && j <= |events| && r in states[j].runs && n < |states[j].runs[r].written|
    ensures var u := states[j].runs[r].written[n];
            && i < j && events[i] == Put(r, u.etag.Some?) && CanPut(states[i], r)
            && u == Upload(NextKey(states[i], r), if u.etag.Some? then Some(states[i].nextEtag) else None)
  {
    assert j > 0;
    assert Apply(states[j - 1], events[j - 1]) == Some(states[j]);
    if r in states[j - 1].runs && n < |states[j - 1].runs[r].written| {
      i := WrittenByPut(states, events, j - 1, r, n);
    } else {
      i := j - 1;
    }
  }

  ghost predicate SetStands(s: State, r: RunId)
    requires r in s.runs
  {
    forall n :: 0 <= n < |s.runs[r].written| ==>
      var u := s.runs[r].written[n];
      u.etag.Some? && Holds(s, u.key, Object(u.etag.value, r))
  }

  /** A run's whole set is in place exactly when every one of its puts is unharmed. */
  lemma {:induction false} SetSurvivesIff(states: seq<State>, events: seq<Event>, j: nat, r: RunId)
    requires Behaviour(states, events) && EveryPutReports(events) && j <= |events| && r in states[j].runs
    ensures SetStands(states[j], r)
       <==> forall i :: 0 <= i < j && events[i] == Put(r, true) && CanPut(states[i], r) ==> Unharmed(states, events, i, j, r)
  {
    UploadsKnowTheirEtag(states, events, j, r);
    hide Harmless, Behaviour;
    var written := states[j].runs[r].written;
    forall i | 0 <= i < j && events[i] == Put(r, true) && CanPut(states[i], r) && SetStands(states[j], r)
      ensures Unharmed(states, events, i, j, r)
    {
      PutIsWritten(states, events, i, j, r);
      var n := |states[i].runs[r].written|;
      assert written[n] == Upload(NextKey(states[i], r), Some(states[i].nextEtag));
      ObjectSurvivesIff(states, events, i, j, r);
    }
    if forall i :: 0 <= i < j && events[i] == Put(r, true) && CanPut(states[i], r) ==> Unharmed(states, events, i, j, r) {
      forall n | 0 <= n < |written|
        ensures written[n].etag.Some? && Holds(states[j], written[n].key, Object(written[n].etag.value, r))
      {
        var i := WrittenByPut(states, events, j, r, n);
        ObjectSurvivesIff(states, events, i, j, r);
        assert Unharmed(states, events, i, j, r);
      }
    }
  }

  /** Since event `i` somebody else put the key, and the run itself not after that. */
  ghost predicate TakenSince(states: seq<State>, events: seq<Event>, i: nat, j: nat, r: RunId, key: Key)
    requires Behaviour(states, events) && j <= |events|
  {
    exists p :: i < p < j && TakenAt(states, events, p, j, r, key)
  }

  ghost predicate TakenAt(states: seq<State>, events: seq<Event>, p: nat, j: nat, r: RunId, key: Key)
    requires Behaviour(states, events) && p < j <= |events|
  {
    && PutsOn(states[p], events[p], key) && events[p].run != r
    && forall q :: p < q < j && PutsOn(states[q], events[q], key) ==> events[q].run != r
  }

  /** Whoever put a key last is the writer of what it holds. */
  lemma {:induction false} LastPutIsWriter(states: seq<State>, events: seq<Event>, i: nat, j: nat, r: RunId, key: Key)
    requires Behaviour(states, events) && i < j <= |events|
    requires key in states[i + 1].bucket ==> states[i + 1].bucket[key].writer == r
    ensures key in states[j].bucket ==> (states[j].bucket[key].writer != r <==> TakenSince(states, events, i, j, r, key))
    decreases j
  {
    if j > i + 1 {
      var m := j - 1;
      LastPutIsWriter(states, events, i, m, r, key);
      assert Apply(states[m], events[m]) == Some(states[j]);
      StepOnKey(states[m], events[m], key);
      hide Apply, PutsOn;
      if PutsOn(states[m], events[m], key) {
        if events[m].run != r {
          assert TakenAt(states, events, m, j, r, key);
        }
      } else {
        if p :| i < p < m && TakenAt(states, events, p, m, r, key) {
          assert TakenAt(states, events, p, j, r, key);
        }
        if p :| i < p < j && TakenAt(states, events, p, j, r, key) {
          assert p < m && TakenAt(states, events, p, m, r, key);
        }
      }
    }
  }

  /** Event `j` is a delete; its run is looking at an upload whose response carried no ETag. */
  ghost predicate SendsUnguarded(states: seq<State>, events: seq<Event>, j: nat)
    requires Behaviour(states, events)
  {
    && j < |events| && events[j].Delete?
    && var r := events[j].run;
       r in states[j].runs && InRollback(states[j].runs[r]) && Current(states[j].runs[r]).etag.None?
  }

  /** In any interleaving every unguarded delete goes back to a put of its run that reported
      no ETag, and takes another run's object exactly when somebody else has put the key
      since, and the run itself not after them. */
  lemma {:induction false} UnguardedDelete(states: seq<State>, events: seq<Event>, j: nat) returns (i: nat)
    requires Behaviour(states, events) && SendsUnguarded(states, events, j)
    ensures var r := events[j].run;
            && i < j && events[i] == Put(r, false) && CanPut(states[i], r)
            && NextKey(states[i], r) == Current(states[j].runs[r]).key
            && var key := NextKey(states[i], r);
               key in states[j].bucket ==>
                 (states[j].bucket[key].writer != r <==> TakenSince(states, events, i, j, r, key))
  {
    var r := events[j].run;
    i := WrittenByPut(states, events, j, r, states[j].runs[r].phase.left - 1);
    assert Apply(states[i], events[i]) == Some(states[i + 1]);
    LastPutIsWriter(states, events, i, j, r, NextKey(states[i], r));
  }

  /** Once a run has given up, an object it wrote and can recognise is gone or
      replaced, unless looking at it or deleting it raised. */
  lemma {:induction false} FailedRunLeavesNothing(states: seq<State>, events: seq<Event>, i: nat, r: RunId, n: nat)
    requires Behaviour(states, events) && i <= |events|
    requires r in states[i].runs && states[i].runs[r].phase.Failed? && n < |states[i].runs[r].written|
    ensures var u := states[i].runs[r].written[n];
            u.etag.Some? && u.key in states[i].bucket && states[i].bucket[u.key].etag == u.etag.value
            ==> u.key in states[i].runs[r].spared
  {
    InvAlways(states, events, i);
    assert RunOk(states[i], r, states[i].runs[r]);
    var u := states[i].runs[r].written[n];
    assert Survives(states[i], u) ==> u.key in states[i].runs[r].spared;
  }

  // ----- two runs of one day -----

  const ROLES_KEY: Key := "daily/2026-08-03/roles.sql.enc"
  const SCHEMA_KEY: Key := "daily/2026-08-03/schema.sql.enc"

  function Start(): State {
    State(map[], map[0 := Run([ROLES_KEY, SCHEMA_KEY], [], Uploading, {}), 1 := Run([ROLES_KEY], [], Uploading, {})], 0)
  }

  /** Run 1 says it is done, yet the one object it wrote is missing at the end. */
  ghost predicate LosesFinishedSet(states: seq<State>, events: seq<Event>) {
    && Behaviour(states, events) && states[0] == Start()
    && var s := states[|events|];
       && 1 in s.runs && s.runs[1].phase == Done && |s.runs[1].written| == 1
       && s.runs[1].written[0].key == ROLES_KEY && ROLES_KEY !in s.bucket
  }

  /** The gap matters: a put between head and delete is lost, and its run has finished. */
  lemma PutInTheGapIsLost()
    ensures exists states :: LosesFinishedSet(states,
              [Put(0, true), PutRaises(0, false), Head(0, false), Put(1, true), Finish(1), Delete(0, false, true)])
  {
    var events := [Put(0, true), PutRaises(0, false), Head(0, false), Put(1, true), Finish(1), Delete(0, false, true)];
    var s0 := Start();
    var s1 := Apply(s0, events[0]).value;
    var s2 := Apply(s1, events[1]).value;
    var s3 := Apply(s2, events[2]).value;
    var s4 := Apply(s3, events[3]).value;
    var s5 := Apply(s4, events[4]).value;
    var s6 := Apply(s5, events[5]).value;
    assert LosesFinishedSet([s0, s1, s2, s3, s4, s5, s6], events);
  }

  /** Without any race, a run that finished can still lose its set: a later run of the
      same day overwrites it, fails, and rolls its own objects back. */
  lemma FinishedSetCanVanish()
    ensures exists states :: LosesFinishedSet(states,
              [Put(1, true), Finish(1), Put(0, true), PutRaises(0, false), Head(0, false), Delete(0, false, true)])
  {
    var events := [Put(1, true), Finish(1), Put(0, true), PutRaises(0, false), Head(0, false), Delete(0, false, true)];
    var s0 := Start();
    var s1 := Apply(s0, events[0]).value;
    var s2 := Apply(s1, events[1]).value;
    var s3 := Apply(s2, events[2]).value;
    var s4 := Apply(s3, events[3]).value;
    var s5 := Apply(s4, events[4]).value;
    var s6 := Apply(s5, events[5]).value;
    assert LosesFinishedSet([s0, s1, s2, s3, s4, s5, s6], events);
  }

  /** A rollback starts at the newest upload and works backwards: with `left` to go it takes,
      if anything, the key of upload `left - 1`, and no step of a head alone takes any. */
  lemma {:induction false} NewestFirst(s: State, r: RunId, raises: bool, landed: bool)
    ensures Apply(s, PutRaises(r, landed)).Some? ==>
              Apply(s, PutRaises(r, landed)).value.runs[r].phase == RollingBack(|s.runs[r].written|)
    ensures Apply(s, Head(r, raises)).Some? ==>
              var left, next := s.runs[r].phase.left, Apply(s, Head(r, raises)).value;
              next.bucket == s.bucket && next.runs[r].phase in {Deleting(left), RollingBack(left - 1)}
    ensures Apply(s, Delete(r, raises, landed)).Some? ==>
              var left, next := s.runs[r].phase.left, Apply(s, Delete(r, raises, landed)).value;
              && 0 < left <= |s.runs[r].written|
              && next.runs[r].phase == RollingBack(left - 1)
              && next.bucket == if raises && !landed then s.bucket else s.bucket - {s.runs[r].written[left - 1].key}
  {
  }

  // ----- every run goes on, and ends -----

  predicate Concerns(e: Event, r: RunId) {
    match e
    case Expire(_) => false
    case _ => e.run == r
  }

  /** A bound on the steps a run has left: puts, then a head and a delete for each upload. */
  function StepsLeft(run: Run): int {
    match run.phase
    case Uploading => 3 * |run.keys| + 2 - |run.written|
    case RollingBack(left) => 2 * left + 1
    case Deleting(left) => 2 * left
    case Done => 0
    case Failed => 0
  }

  predicate Fits(run: Run) {
    |run.written| <= |run.keys| && (run.phase.Deleting? ==> run.phase.left > 0)
  }

  lemma {:induction false} OwnStep(s: State, e: Event, r: RunId)
    requires Apply(s, e).Some? && r in s.runs && Concerns(e, r) && Fits(s.runs[r])
    ensures r in Apply(s, e).value.runs
    ensures var run, next := s.runs[r], Apply(s, e).value.runs[r];
            next.keys == run.keys && Fits(next) && StepsLeft(next) < StepsLeft(run)
  {
  }

  /** A step of one run, or of the lifecycle, leaves the records of the other runs alone; the
      lifecycle can take any object at any time, and takes nothing else. */
  lemma {:induction false} OtherStep(s: State, e: Event, r: RunId, key: Key)
    ensures Apply(s, e).Some? && r in s.runs && !Concerns(e, r) ==>
              r in Apply(s, e).value.runs && Apply(s, e).value.runs[r] == s.runs[r]
    ensures Apply(s, Expire(key)).Some?
    ensures var s' := Apply(s, Expire(key)).value;
            s'.runs == s.runs && forall k :: k in s'.bucket <==> k in s.bucket && k != key
    ensures forall k :: k in Apply(s, Expire(key)).value.bucket ==> Apply(s, Expire(key)).value.bucket[k] == s.bucket[k]
  {
  }

  /** No run gets stuck: some event of it is possible until it is done or has failed, and
      none from then on. */
  lemma {:induction false} RunsGoOn(s: State, r: RunId)
    requires Inv(s) && r in s.runs && Fits(s.runs[r])
    ensures (exists e :: Concerns(e, r) && Apply(s, e).Some?) <==> s.runs[r].phase !in {Done, Failed}
  {
    var run := s.runs[r];
    assert RunOk(s, r, run);
    hide Inv;
    if run.phase.Uploading? {
      var e := if |run.written| < |run.keys| then Put(r, true) else Finish(r);
      assert Concerns(e, r) && Apply(s, e).Some?;
    } else if run.phase.RollingBack? {
      var e := if run.phase.left == 0 then GiveUp(r) else Head(r, false);
      assert Concerns(e, r) && Apply(s, e).Some?;
    } else if run.phase.Deleting? {
      assert Concerns(Delete(r, false, true), r) && Apply(s, Delete(r, false, true)).Some?;
    }
  }

  function EventsOf(events: seq<Event>, r: RunId): nat {
    if events == [] then 0
    else EventsOf(events[..|events| - 1], r) + if Concerns(events[|events| - 1], r) then 1 else 0
  }

  lemma {:induction false} StepsTaken(states: seq<State>, events: seq<Event>, r: RunId)
    requires Behaviour(states, events) && r in states[0].runs
    ensures var run := states[0].runs[r];
            && r in states[|events|].runs && states[|events|].runs[r].keys == run.keys && Fits(states[|events|].runs[r])
            && EventsOf(events, r) + StepsLeft(states[|events|].runs[r]) <= 3 * |run.keys| + 2
  {
    if events != [] {
      var k := |events| - 1;
      StepsTaken(states[..|events|], events[..k], r);
      assert Apply(states[k], events[k]) == Some(states[k + 1]);
      hide Apply, Fits, StepsLeft, Concerns, Behaviour;
      if Concerns(events[k], r) {
        OwnStep(states[k], events[k], r);
      } else {
        OtherStep(states[k], events[k], r, "");
      }
    }
  }

  /** In every interleaving a run of `n` keys takes at most `3 n + 2` steps, raises, heads
      and deletes included; with as many behind it, it is done or has failed. */
  lemma {:induction false} EveryRunEnds(states: seq<State>, events: seq<Event>, r: RunId)
    requires Behaviour(states, events) && r in states[0].runs
    ensures r in states[|events|].runs && EventsOf(events, r) <= 3 * |states[0].runs[r].keys| + 2
    ensures EventsOf(events, r) == 3 * |states[0].runs[r].keys| + 2 ==> states[|events|].runs[r].phase in {Done, Failed}
  {
    StepsTaken(states, events, r);
    hide Behaviour, EventsOf;
  }
}
