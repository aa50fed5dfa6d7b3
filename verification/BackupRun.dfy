/** One run of `scripts/backup_database.py` against a bucket whose every call may
    fail: sentinel, dumps, uploads with rollback, history check, lifecycle last. */
module BackupRun {
  import opened Collections
  import opened BackupSchedule

  datatype File = Roles | Schema | Data

  const LEGS: seq<File> := [Roles, Schema, Data]
  const MIN_LEG_BYTES := 40

  /** Object keys; a leg's key is `{tier}/{date}/{file}.enc`. */
  datatype Key = Sentinel | Leg(tier: Tier, day: nat, file: File) | Other(name: string)

  /** Encryption is abstract: only the plaintext can be recovered from a ciphertext. */
  datatype Body = Marker | Encrypted(plain: string) | Unknown(tag: nat)

  /** ETags this run's puts receive, and those of objects that others write. */
  datatype Etag = Issued(n: nat) | Foreign(n: nat)

  datatype Object = Object(body: Body, etag: Etag)

  datatype Rule = Rule(tier: Tier, days: int) | OtherRule(id: string)

  /** A finished `supabase db dump` leg, and whether its structural marker matched. */
  datatype Dump = DumpFails | Dumped(text: string, marked: bool)

  datatype Reading = Readable | NoConfiguration | ReadDenied | ReadBroken
  datatype Writing = Accepted | WriteDenied | WriteBroken(landed: bool)

  /** One list response: the date segments that parsed, and where to go on. */
  datatype Page = Page(segments: seq<Option<int>>, truncated: bool, next: Option<string>)

  /** What the bucket answers to list call number `k` with a token, none being empty; the
      call may raise. */
  type Listing = (nat, string) -> Option<Page>

  /** Everything outside the program's control during one run. */
  datatype World = World(
    sentinelHeadBroken: bool,
    sentinelPutRaises: bool,
    sentinelLanded: bool,           // a sentinel put that raises may have taken effect
    dump: File -> Dump,
    putRaises: set<Key>,
    landed: set<Key>,               // puts that take effect even if they raise
    silent: set<Key>,               // puts whose response carries no ETag
    overwrites: map<Key, nat>,      // keys another run puts after this run's put
    headRaises: set<Key>,
    deleteRaises: set<Key>,
    listing: map<Key, Object> -> Listing,
    reading: Reading,
    writing: Writing)

  datatype Error =
    | SentinelUnreadable
    | NotABackupBucket
    | SentinelNotWritten
    | DumpFailed(file: File)
    | LegTooSmall(file: File)
    | LegUnmarked(file: File)
    | UploadFailed(key: Key)
    | ListFailed
    | HistoryRejected(verdict: Verdict)
    | LifecycleUnreadable
    | LifecycleNotWritten

  datatype Result<T> = Ok(value: T) | Err(error: Error)

  class Bucket {
    var objects: map<Key, Object>
    var rules: seq<Rule>
    var nextEtag: nat

    constructor (objects: map<Key, Object>, rules: seq<Rule>)
      ensures this.objects == objects && this.rules == rules && nextEtag == 0
    {
      this.objects, this.rules, nextEtag := objects, rules, 0;
    }
  }

  datatype Upload = Upload(key: Key, etag: Option<Etag>)

  // ----- the keys of a run -----

  function TierKeys(file: File, tiers: seq<Tier>, day: nat): seq<Key> {
    seq(|tiers|, i requires 0 <= i < |tiers| => Leg(tiers[i], day, file))
  }

  function LegKeys(files: seq<File>, tiers: seq<Tier>, day: nat): (keys: seq<Key>)
    ensures |keys| == |files| * |tiers|
  {
    if |files| == 0 then []
    else LegKeys(files[..|files| - 1], tiers, day) + TierKeys(files[|files| - 1], tiers, day)
  }

  function RunKeys(day: nat): seq<Key> {
    LegKeys(LEGS, TiersForDate(day), day)
  }

  lemma {:induction false} LegKeyMembers(files: seq<File>, tiers: seq<Tier>, day: nat)
    ensures forall k :: k in LegKeys(files, tiers, day) <==> k.Leg? && k.day == day && k.tier in tiers && k.file in files
  {
    if |files| > 0 {
      var m := |files| - 1;
      LegKeyMembers(files[..m], tiers, day);
      assert files == files[..m] + [files[m]];
      forall k
        ensures k in TierKeys(files[m], tiers, day) <==> k.Leg? && k.day == day && k.tier in tiers && k.file == files[m]
      {
        if k.Leg? && k.day == day && k.file == files[m] && k.tier in tiers {
          var i :| 0 <= i < |tiers| && tiers[i] == k.tier;
          assert TierKeys(files[m], tiers, day)[i] == k;
        }
      }
    }
  }

  ghost predicate Distinct(keys: seq<Key>) {
    forall i, j :: 0 <= i < j < |keys| ==> keys[i] != keys[j]
  }

  lemma {:induction false} LegKeysDistinct(files: seq<File>, tiers: seq<Tier>, day: nat)
    requires forall i, j :: 0 <= i < j < |files| ==> files[i] != files[j]
    requires forall i, j :: 0 <= i < j < |tiers| ==> tiers[i] != tiers[j]
    ensures Distinct(LegKeys(files, tiers, day))
  {
    if |files| > 0 {
      var m := |files| - 1;
      LegKeysDistinct(files[..m], tiers, day);
      LegKeyMembers(files[..m], tiers, day);
    }
  }

  /** A run writes three legs to each of its one to three tiers, under distinct keys. */
  lemma RunKeysAre(day: nat)
    ensures Distinct(RunKeys(day)) && |RunKeys(day)| == 3 * |TiersForDate(day)|
    ensures forall k :: k in RunKeys(day) <==> k.Leg? && k.day == day && k.tier in TiersForDate(day)
  {
    LegKeysDistinct(LEGS, TiersForDate(day), day);
    LegKeyMembers(LEGS, TiersForDate(day), day);
    forall f: File
      ensures f in LEGS
    {
      var _ := AllLegs(f);
    }
  }

  lemma {:induction false} AllLegs(f: File) returns (j: nat)
    ensures j < |LEGS| && LEGS[j] == f && f in LEGS
  {
    j := match f case Roles => 0 case Schema => 1 case Data => 2;
  }

  // ----- sentinel and dumps -----

  predicate BeforeUploads(e: Error) {
    e.SentinelUnreadable? || e.NotABackupBucket? || e.SentinelNotWritten? || e.DumpFailed? || e.LegTooSmall? || e.LegUnmarked?
  }

  predicate AfterUploads(e: Error) {
    e.ListFailed? || e.HistoryRejected? || e.LifecycleUnreadable? || e.LifecycleNotWritten?
  }

  ghost predicate SameAt(before: map<Key, Object>, after: map<Key, Object>, k: Key) {
    (k in after <==> k in before) && (k in after ==> after[k] == before[k])
  }

  /** At most the sentinel changed, and only when the run was told to initialise. */
  ghost predicate OnlySentinel(before: map<Key, Object>, after: map<Key, Object>, initBucket: bool) {
    && (forall k :: k != Sentinel ==> SameAt(before, after, k))
    && (SameAt(before, after, Sentinel) || (initBucket && Sentinel !in before && Sentinel in after
          && after[Sentinel].body == Marker))
  }

  /** The sentinel can be read and is there, or may be and is written. */
  predicate Opens(w: World, objects: map<Key, Object>, initBucket: bool) {
    !w.sentinelHeadBroken && (Sentinel in objects || (initBucket && !w.sentinelPutRaises))
  }

  method VerifyBucket(b: Bucket, w: World, initBucket: bool) returns (e: Option<Error>)
    modifies b`objects, b`nextEtag
    ensures e.None? <==> Opens(w, old(b.objects), initBucket)
    ensures e.None? <==> !w.sentinelHeadBroken && (Sentinel in old(b.objects) || (initBucket && !w.sentinelPutRaises))
    ensures e == Some(SentinelUnreadable) <==> w.sentinelHeadBroken
    ensures OnlySentinel(old(b.objects), b.objects, initBucket)
    ensures e.Some? ==> BeforeUploads(e.value) && (b.objects == old(b.objects) || (w.sentinelPutRaises && w.sentinelLanded))
    ensures e.None? ==> Sentinel in b.objects && (Sentinel in old(b.objects) ==> b.objects == old(b.objects))
    ensures e == Some(NotABackupBucket) <==> !w.sentinelHeadBroken && Sentinel !in old(b.objects) && !initBucket
  {
    if w.sentinelHeadBroken {
      return Some(SentinelUnreadable);
    }
    if Sentinel !in b.objects {
      if !initBucket {
        return Some(NotABackupBucket);
      }
      if !w.sentinelPutRaises || w.sentinelLanded {
        b.objects := b.objects[Sentinel := Object(Marker, Issued(b.nextEtag))];
        b.nextEtag := b.nextEtag + 1;
      }
      if w.sentinelPutRaises {
        return Some(SentinelNotWritten);
      }
    }
    e := None;
  }

  predicate GoodDump(d: Dump) {
    d.Dumped? && |d.text| >= MIN_LEG_BYTES && d.marked
  }

  method DumpLegs(w: World) returns (r: Result<map<File, Body>>)
    ensures r.Ok? <==> forall f :: w.dump(f).Dumped? && |w.dump(f).text| >= 40 && w.dump(f).marked
    ensures r.Ok? ==> forall f :: f in r.value && r.value[f] == Encrypted(w.dump(f).text)
    ensures r.Err? ==>
              && BeforeUploads(r.error)
              && match r.error
                 case DumpFailed(f) => w.dump(f).DumpFails?
                 case LegTooSmall(f) => w.dump(f).Dumped? && |w.dump(f).text| < 40
                 case LegUnmarked(f) => w.dump(f).Dumped? && |w.dump(f).text| >= 40 && !w.dump(f).marked
                 case _ => false
  {
    var ciphertexts: map<File, Body> := map[];
    for i := 0 to |LEGS|
      invariant forall j :: 0 <= j < i ==> GoodDump(w.dump(LEGS[j]))
      invariant forall j :: 0 <= j < i ==> LEGS[j] in ciphertexts && ciphertexts[LEGS[j]] == Encrypted(w.dump(LEGS[j]).text)
    {
      var file := LEGS[i];
      assert file in LEGS;
      match w.dump(file)
      case DumpFails => return Err(DumpFailed(file));
      case Dumped(text, marked) =>
        if |text| < MIN_LEG_BYTES {
          return Err(LegTooSmall(file));
        }
        if !marked {
          return Err(LegUnmarked(file));
        }
        ciphertexts := ciphertexts[file := Encrypted(text)];
    }
    forall f: File
      ensures GoodDump(w.dump(f)) && f in ciphertexts && ciphertexts[f] == Encrypted(w.dump(f).text)
    {
      var j := AllLegs(f);
    }
    r := Ok(ciphertexts);
  }

  // ----- the upload loop -----

  function EtagSeen(w: World, key: Key, n: nat): Option<Etag> {
    if key in w.silent then None else Some(Issued(n))
  }

  /** The bucket once the first `n` keys have been put. */
  function Placed(objects: map<Key, Object>, keys: seq<Key>, bodies: map<File, Body>, base: nat, n: nat): map<Key, Object>
    requires n <= |keys| && forall k :: k in keys ==> k.Leg? && k.file in bodies
  {
    if n == 0 then objects
    else Placed(objects, keys, bodies, base, n - 1)[keys[n - 1] := Object(bodies[keys[n - 1].file], Issued(base + n - 1))]
  }

  function Records(w: World, keys: seq<Key>, base: nat, n: nat): seq<Upload>
    requires n <= |keys|
  {
    seq(n, i requires 0 <= i < n => Upload(keys[i], EtagSeen(w, keys[i], base + i)))
  }

  /** What the bucket and the run's records are after `written` went up without a failure. */
  ghost predicate UploadedSoFar(b: Bucket, w: World, keys: seq<Key>, bodies: map<File, Body>,
                                objects: map<Key, Object>, base: nat, written: seq<Upload>)
    requires forall k :: k in keys ==> k.Leg? && k.file in bodies
    reads b
  {
    && |written| <= |keys|
    && written == Records(w, keys, base, |written|)
    && b.objects == Placed(objects, keys, bodies, base, |written|)
    && b.nextEtag == base + |written|
    && forall j :: 0 <= j < |written| ==> keys[j] !in w.putRaises
  }

  method PutLeg(b: Bucket, w: World, key: Key, body: Body, written: seq<Upload>,
                ghost keys: seq<Key>, ghost bodies: map<File, Body>, ghost objects: map<Key, Object>, ghost base: nat)
    returns (more: seq<Upload>)
    requires forall k :: k in keys ==> k.Leg? && k.file in bodies
    requires UploadedSoFar(b, w, keys, bodies, objects, base, written) && |written| < |keys|
    requires key == keys[|written|] && body == bodies[key.file] && key !in w.putRaises
    modifies b`objects, b`nextEtag
    ensures UploadedSoFar(b, w, keys, bodies, objects, base, more) && |more| == |written| + 1
  {
    b.objects := b.objects[key := Object(body, Issued(b.nextEtag))];
    more := written + [Upload(key, EtagSeen(w, key, b.nextEtag))];
    b.nextEtag := b.nextEtag + 1;
  }

  /** Puts one leg to every tier, after `written` has gone up. */
  method UploadLeg(b: Bucket, w: World, day: nat, i: nat, bodies: map<File, Body>, written: seq<Upload>,
                   ghost objects: map<Key, Object>, ghost base: nat)
    returns (more: seq<Upload>, failed: Option<Key>)
    requires i < |LEGS| && (forall f: File :: f in bodies) && forall k :: k in RunKeys(day) ==> k.Leg? && k.file in bodies
    requires UploadedSoFar(b, w, RunKeys(day), bodies, objects, base, written)
    requires |written| == i * |TiersForDate(day)|
    modifies b`objects, b`nextEtag
    ensures UploadedSoFar(b, w, RunKeys(day), bodies, objects, base, more)
    ensures failed.None? ==> |more| == (i + 1) * |TiersForDate(day)|
    ensures failed.Some? ==> |more| < |RunKeys(day)| && failed.value == RunKeys(day)[|more|] && failed.value in w.putRaises
  {
    var tiers, file := TiersForDate(day), LEGS[i];
    more := written;
    hide TiersForDate, RunKeys, UploadedSoFar;
    for t := 0 to |tiers|
      invariant |more| == i * |tiers| + t
      invariant UploadedSoFar(b, w, RunKeys(day), bodies, objects, base, more)
    {
      var key := Leg(tiers[t], day, file);
      KeyAt(day, i, t);
      if key in w.putRaises {
        return more, Some(key);
      }
      more := PutLeg(b, w, key, bodies[file], more, RunKeys(day), bodies, objects, base);
    }
    failed := None;
  }

  /** Puts every leg to every tier, file by file, and stops at the first put that raises. */
  method UploadAll(b: Bucket, w: World, day: nat, bodies: map<File, Body>)
    returns (written: seq<Upload>, failed: Option<Key>)
    requires forall f: File :: f in bodies
    modifies b`objects, b`nextEtag
    ensures forall k :: k in RunKeys(day) ==> k.Leg? && k.file in bodies
    ensures |written| <= |RunKeys(day)|
    ensures UploadedSoFar(b, w, RunKeys(day), bodies, old(b.objects), old(b.nextEtag), written)
    ensures failed.None? ==> |written| == |RunKeys(day)|
    ensures failed.Some? ==>
              && |written| < |RunKeys(day)| && failed.value == RunKeys(day)[|written|] && failed.value in w.putRaises
  {
    RunKeysAre(day);
    ghost var objects, base := b.objects, b.nextEtag;
    written, failed := [], None;
    hide TiersForDate, RunKeys;
    for i := 0 to |LEGS|
      invariant |written| == i * |TiersForDate(day)|
      invariant UploadedSoFar(b, w, RunKeys(day), bodies, objects, base, written)
    {
      written, failed := UploadLeg(b, w, day, i, bodies, written, objects, base);
      if failed.Some? {
        return;
      }
    }
    failed := None;
  }

  lemma KeyAt(day: nat, i: nat, t: nat)
    requires i < |LEGS| && t < |TiersForDate(day)|
    ensures var n := |TiersForDate(day)|;
            i * n + t < |RunKeys(day)| && RunKeys(day)[i * n + t] == Leg(TiersForDate(day)[t], day, LEGS[i])
  {
    LegKeyAt(LEGS, TiersForDate(day), day, i, t);
  }

  lemma {:induction false} LegKeyAt(files: seq<File>, tiers: seq<Tier>, day: nat, i: nat, t: nat)
    requires i < |files| && t < |tiers|
    ensures i * |tiers| + t < |LegKeys(files, tiers, day)|
    ensures LegKeys(files, tiers, day)[i * |tiers| + t] == Leg(tiers[t], day, files[i])
  {
    var m := |files| - 1;
    if i < m {
      LegKeyAt(files[..m], tiers, day, i, t);
    }
  }

  /** A run writes leg by leg, roles first and data last, and each leg to its tiers in turn. */
  lemma RunKeyAt(day: nat, j: nat, t: nat)
    requires j < 3 && t < |TiersForDate(day)|
    ensures 0 <= j * |TiersForDate(day)| + t < |RunKeys(day)|
    ensures RunKeys(day)[j * |TiersForDate(day)| + t] == Leg(TiersForDate(day)[t], day, [Roles, Schema, Data][j])
  {
    hide TiersForDate;
    LegKeyAt(LEGS, TiersForDate(day), day, j, t);
  }

  lemma {:induction false} PlacedAt(objects: map<Key, Object>, keys: seq<Key>, bodies: map<File, Body>, base: nat, n: nat, k: Key)
    requires n <= |keys| && (forall k :: k in keys ==> k.Leg? && k.file in bodies) && Distinct(keys)
    ensures var after := Placed(objects, keys, bodies, base, n);
            if k in keys[..n] then k in after && after[k].body == bodies[k.file] && after[k].etag.Issued?
            else (k in after <==> k in objects) && (k in after ==> after[k] == objects[k])
    ensures forall i :: 0 <= i < n && keys[i] == k ==>
              var after := Placed(objects, keys, bodies, base, n);
              k in after && after[k] == Object(bodies[k.file], Issued(base + i))
  {
    if n > 0 {
      PlacedAt(objects, keys, bodies, base, n - 1, k);
      assert keys[..n] == keys[..n - 1] + [keys[n - 1]];
    }
  }

  // ----- the rollback -----

  /** What others have put over this run's objects before the rollback starts. */
  function Overwritten(objects: map<Key, Object>, w: World, written: seq<Upload>): map<Key, Object> {
    map k | k in objects :: if k in w.overwrites && WroteKey(written, k) then Object(Unknown(w.overwrites[k]),
        Foreign(w.overwrites[k])) else objects[k]
  }

  predicate WroteKey(written: seq<Upload>, k: Key) {
    exists i :: 0 <= i < |written| && written[i].key == k
  }

  /** One rollback step: head under an ETag, then delete; a raised call is logged and skipped. */
  function Undo(objects: map<Key, Object>, w: World, u: Upload): map<Key, Object> {
    if u.etag.Some? && (u.key in w.headRaises || u.key !in objects || objects[u.key].etag != u.etag.value) then objects
    else if u.key in w.deleteRaises then objects
    else objects - {u.key}
  }

  function RolledBack(objects: map<Key, Object>, w: World, written: seq<Upload>, n: nat): map<Key, Object>
    requires n <= |written|
  {
    if n == 0 then objects else RolledBack(Undo(objects, w, written[n - 1]), w, written, n - 1)
  }

  method Rollback(b: Bucket, w: World, written: seq<Upload>)
    modifies b`objects
    ensures b.objects == RolledBack(old(b.objects), w, written, |written|)
  {
    var left := |written|;
    while left > 0
      invariant 0 <= left <= |written|
      invariant RolledBack(b.objects, w, written, left) == RolledBack(old(b.objects), w, written, |written|)
    {
      left := left - 1;
      var u := written[left];
      if u.etag.Some? {
        if u.key in w.headRaises || u.key !in b.objects || b.objects[u.key].etag != u.etag.value {
          continue;
        }
      }
      if u.key !in w.deleteRaises {
        b.objects := b.objects - {u.key};
      }
    }
  }

  /** Why an uploaded key outlives the rollback. */
  predicate Spared(w: World, k: Key) {
    k in w.deleteRaises || (k !in w.silent && (k in w.headRaises || k in w.overwrites))
  }

  lemma {:induction false} RolledBackAt(objects: map<Key, Object>, w: World, written: seq<Upload>, n: nat, k: Key)
    requires n <= |written|
    requires forall i, j :: 0 <= i < j < n ==> written[i].key != written[j].key
    ensures var after := RolledBack(objects, w, written, n);
            && (k in after ==> k in objects && after[k] == objects[k])
            && ((forall i :: 0 <= i < n ==> written[i].key != k) ==> (k in after <==> k in objects))
            && forall i :: 0 <= i < n && written[i].key == k ==> (k in after <==> k in Undo(objects, w, written[i]))
  {
    if n > 0 {
      RolledBackAt(Undo(objects, w, written[n - 1]), w, written, n - 1, k);
    }
  }

  // ----- after the uploads -----

  /** The dates that have any object under the daily prefix. */
  ghost predicate Listed(objects: map<Key, Object>, d: int) {
    exists k :: k in objects && k.Leg? && k.tier == Daily && k.day == d
  }

  ghost function ListedDates(objects: map<Key, Object>): (dates: set<int>)
    ensures forall d :: d in dates <==> Listed(objects, d)
  {
    set k | k in objects && k.Leg? && k.tier == Daily :: k.day
  }

  function NextToken(response: Option<Page>): string {
    if response.Some? && response.value.next.Some? then response.value.next.value else ""
  }

  /** The response to call number `k`, which carries the token of the response before. */
  function Response(serve: Listing, k: nat): Option<Page> {
    serve(k, if k == 0 then "" else NextToken(Response(serve, k - 1)))
  }

  /** The loop ends with this response: the call raised, or the response says it is the
      last or gives no token to go on with. */
  predicate Ends(response: Option<Page>) {
    response.None? || !response.value.truncated || NextToken(response) == ""
  }

  /** Some response lets the loop end. */
  ghost predicate Finite(serve: Listing) {
    exists n: nat :: Ends(Response(serve, n))
  }

  ghost predicate LastCall(serve: Listing, n: nat) {
    Ends(Response(serve, n)) && forall k :: 0 <= k < n ==> !Ends(Response(serve, k))
  }

  predicate OnPage(response: Option<Page>, d: int) {
    response.Some? && Some(d) in response.value.segments
  }

  ghost predicate Collected(serve: Listing, n: nat, d: int) {
    exists k :: 0 <= k <= n && OnPage(Response(serve, k), d)
  }

  method AddPage(dates: seq<int>, page: Page) returns (more: seq<int>)
    ensures forall d :: d in more <==> d in dates || Some(d) in page.segments
  {
    more := dates;
    for j := 0 to |page.segments|
      invariant forall d :: d in more <==> d in dates || Some(d) in page.segments[..j]
    {
      var segment := page.segments[j];
      if segment.Some? && segment.value !in more {
        more := more + [segment.value];
      }
    }
    assert page.segments[..|page.segments|] == page.segments;
  }

  /** Follows the tokens and collects the dates; it ends exactly when some response lets it. */
  method CollectDates(serve: Listing) returns (dates: Option<seq<int>>)
    requires Finite(serve)
    ensures exists n :: LastCall(serve, n) && (dates.None? <==> Response(serve, n).None?)
              && (dates.Some? ==> forall d :: d in dates.value <==> Collected(serve, n, d))
  {
    ghost var bound: nat :| Ends(Response(serve, bound));
    var found := [];
    var k := 0;
    var token := "";
    hide Ends;
    while true
      invariant k <= bound && token == if k == 0 then "" else NextToken(Response(serve, k - 1))
      invariant forall i :: 0 <= i < k ==> !Ends(Response(serve, i))
      invariant forall d :: d in found <==> exists i :: 0 <= i < k && OnPage(Response(serve, i), d)
      decreases bound - k
    {
      var response := serve(k, token);
      assert response == Response(serve, k);
      if response.None? {
        assert LastCall(serve, k) by { assert Ends(Response(serve, k)) by { EndsWhen(response); } }
        return None;
      }
      found := AddPage(found, response.value);
      assert forall d :: d in found <==> Collected(serve, k, d);
      if !response.value.truncated || NextToken(response) == "" {
        EndsWhen(response);
        assert LastCall(serve, k);
        return Some(found);
      }
      EndsWhen(response);
      assert k != bound;
      token := NextToken(response);
      k := k + 1;
    }
  }

  lemma {:induction false} EndsWhen(response: Option<Page>)
    ensures Ends(response) <==> response.None? || !response.value.truncated || NextToken(response) == ""
  {
  }

  /** A page and the way on from it: `more` names the next page, and without it the page says
      that it is the last, or names none. */
  predicate LeadsOn(page: Page, segments: seq<Option<int>>, more: Option<string>) {
    && page.segments == segments
    && match more
       case Some(name) => page.truncated && page.next == Some(name)
       case None => !page.truncated || page.next.None? || page.next.value == ""
  }

  /** Pages kept under tokens: the first under none, the others under names of their own. */
  ghost predicate Serves(serve: Listing, names: seq<string>, pages: seq<seq<Option<int>>>) {
    && |names| == |pages| > 0 && names[0] == ""
    && (forall i :: 0 < i < |names| ==> names[i] != "")
    && forall k: nat, i :: 0 <= i < |pages| ==>
         && serve(k, names[i]).Some?
         && LeadsOn(serve(k, names[i]).value, pages[i], if i < |pages| - 1 then Some(names[i + 1]) else None)
  }

  lemma {:induction false} PageInTurn(serve: Listing, names: seq<string>, pages: seq<seq<Option<int>>>, k: nat)
    requires Serves(serve, names, pages) && k < |pages|
    ensures Response(serve, k).Some?
    ensures LeadsOn(Response(serve, k).value, pages[k], if k < |pages| - 1 then Some(names[k + 1]) else None)
  {
    if k > 0 {
      PageInTurn(serve, names, pages, k - 1);
      assert Response(serve, k) == serve(k, names[k]);
    } else {
      assert Response(serve, 0) == serve(0, names[0]);
    }
  }

  /** From a bucket that pages its dates, each page under the token the one before gave,
      the loop reads every page and so misses no date. */
  lemma {:induction false} NoDateMissed(serve: Listing, names: seq<string>, pages: seq<seq<Option<int>>>)
    requires Serves(serve, names, pages)
    ensures LastCall(serve, |pages| - 1) && Response(serve, |pages| - 1).Some?
    ensures forall d :: Collected(serve, |pages| - 1, d) <==> exists j :: 0 <= j < |pages| && Some(d) in pages[j]
  {
    forall k | 0 <= k < |pages|
      ensures Response(serve, k).Some?
      ensures LeadsOn(Response(serve, k).value, pages[k], if k < |pages| - 1 then Some(names[k + 1]) else None)
    {
      PageInTurn(serve, names, pages, k);
    }
    hide Response;
    forall d
      ensures Collected(serve, |pages| - 1, d) <==> exists j :: 0 <= j < |pages| && Some(d) in pages[j]
    {
      if k :| 0 <= k <= |pages| - 1 && OnPage(Response(serve, k), d) {
        assert Some(d) in pages[k];
      }
      if j :| 0 <= j < |pages| && Some(d) in pages[j] {
        assert OnPage(Response(serve, j), d);
      }
    }
  }

  /** Listing the bucket comes to an end and, unless it raises, names the dates it holds. */
  ghost predicate ListsTruly(w: World) {
    forall objects :: TrueListing(w.listing(objects), objects)
  }

  ghost predicate TrueListing(serve: Listing, objects: map<Key, Object>) {
    && Finite(serve)
    && forall n :: LastCall(serve, n) && Response(serve, n).Some? ==> forall d :: Collected(serve, n, d) <==> Listed(objects, d)
  }

  lemma {:induction false} SameDates(dates: seq<int>, objects: map<Key, Object>)
    requires forall d :: d in dates <==> Listed(objects, d)
    ensures DatesOf(dates) == ListedDates(objects)
  {
    hide Listed;
    forall d
      ensures d in DatesOf(dates) <==> d in ListedDates(objects)
    {
      assert d in dates <==> Listed(objects, d);
    }
  }

  /** The loop over the list calls ends with a call that raised. */
  ghost predicate ListingRaises(serve: Listing) {
    exists n :: LastCall(serve, n) && Response(serve, n).None?
  }

  lemma {:induction false} OneLastCall(serve: Listing, m: nat, n: nat)
    requires LastCall(serve, m) && LastCall(serve, n)
    ensures m == n
  {
    hide Response, Ends;
  }

  method ListDates(b: Bucket, w: World) returns (dates: Option<seq<int>>)
    requires ListsTruly(w)
    ensures dates.None? <==> ListingRaises(w.listing(b.objects))
    ensures dates.Some? ==> DatesOf(dates.value) == ListedDates(b.objects)
  {
    var serve := w.listing(b.objects);
    assert TrueListing(serve, b.objects);
    hide Response, LastCall, Collected, Listed, Finite;
    dates := CollectDates(serve);
    ghost var n :| LastCall(serve, n) && (dates.None? <==> Response(serve, n).None?)
      && (dates.Some? ==> forall d :: d in dates.value <==> Collected(serve, n, d));
    if m :| LastCall(serve, m) && Response(serve, m).None? {
      OneLastCall(serve, m, n);
    }
    if dates.Some? {
      assert forall d :: Collected(serve, n, d) <==> Listed(b.objects, d);
      SameDates(dates.value, b.objects);
    }
  }

  function OwnedRules(p: Policy): seq<Rule> {
    [Rule(Daily, p.daily), Rule(Weekly, p.weekly), Rule(Monthly, p.monthly)]
  }

  /** The present rules can be read, or there are none, so the write is attempted. */
  predicate MayWriteRules(w: World) {
    w.reading.Readable? || w.reading.NoConfiguration?
  }

  /** The rules after a run that failed: the policy's if the write landed and still raised. */
  function RulesAfterFailure(before: seq<Rule>, p: Policy, w: World, e: Error): seq<Rule> {
    if e.LifecycleNotWritten? && w.writing == WriteBroken(true) then OwnedRules(p) else before
  }

  /** Replaces the rules, unless the token may not read or write them. */
  method EnsureLifecycleRules(b: Bucket, w: World, p: Policy) returns (e: Option<Error>)
    modifies b`rules
    ensures e.Some? ==> b.rules == RulesAfterFailure(old(b.rules), p, w, e.value)
    ensures e.None? ==> b.rules == if w.reading.ReadDenied? || w.writing.WriteDenied? then old(b.rules) else OwnedRules(p)
    ensures e == Some(LifecycleNotWritten) <==> MayWriteRules(w) && w.writing.WriteBroken?
    ensures e == Some(LifecycleUnreadable) <==> w.reading.ReadBroken?
    ensures e.Some? ==> e.value.LifecycleUnreadable? || e.value.LifecycleNotWritten?
  {
    if w.reading.ReadBroken? {
      return Some(LifecycleUnreadable);
    }
    if w.reading.ReadDenied? {
      return None;
    }
    match w.writing
    case WriteBroken(landed) =>
      if landed {
        b.rules := OwnedRules(p);
      }
      return Some(LifecycleNotWritten);
    case WriteDenied => return None;
    case Accepted =>
      b.rules := OwnedRules(p);
      return None;
  }

  // ----- the whole run -----

  /** The key holds the encrypted, validated dump of its leg. */
  ghost predicate HoldsLeg(after: map<Key, Object>, w: World, k: Key) {
    k.Leg? && k in after && GoodDump(w.dump(k.file)) && after[k].body == Encrypted(w.dump(k.file).text)
  }

  /** The upload of `keys[n]` raised: the keys put before it are gone unless spared, that
      one is there if the put took effect all the same, and nothing else moved. */
  ghost predicate AfterFailedUpload(before: map<Key, Object>, after: map<Key, Object>, w: World, keys: seq<Key>, n: nat)
    requires n < |keys|
  {
    forall k :: k != Sentinel ==>
      if k in keys[..n] then k in after <==> Spared(w, k)
      else if k == keys[n] && k in w.landed then HoldsLeg(after, w, k)
      else SameAt(before, after, k)
  }

  /** Every key of the run holds the encrypted, validated dump of its leg. */
  ghost predicate CompleteSet(after: map<Key, Object>, w: World, day: nat) {
    forall k :: k in RunKeys(day) ==> HoldsLeg(after, w, k)
  }

  lemma {:induction false} SparedOrDeleted(objects: map<Key, Object>, w: World, written: seq<Upload>, u: Upload)
    requires u in written && u.key in objects
    requires u.etag.Some? <==> u.key !in w.silent
    requires u.etag.Some? ==> u.etag.value.Issued? && objects[u.key].etag == u.etag.value
    ensures u.key in Undo(Overwritten(objects, w, written), w, u) <==> Spared(w, u.key)
  {
    var i :| 0 <= i < |written| && written[i] == u;
    assert WroteKey(written, u.key);
  }

  lemma {:induction false} RecordsDistinct(w: World, keys: seq<Key>, base: nat, n: nat, k: Key)
    requires n <= |keys| && Distinct(keys)
    ensures var written := Records(w, keys, base, n);
            && (forall i, j :: 0 <= i < j < n ==> written[i].key != written[j].key)
            && ((forall i :: 0 <= i < n ==> written[i].key != k) <==> k !in keys[..n])
            && (WroteKey(written, k) <==> k in keys[..n])
  {
    var written := Records(w, keys, base, n);
    assert forall i :: 0 <= i < n ==> written[i].key == keys[..n][i];
  }

  /** The bucket after `m` puts of which the run recorded `n`, whatever others overwrote,
      and the rollback. */
  function AfterRollback(objects: map<Key, Object>, w: World, keys: seq<Key>, bodies: map<File, Body>, base: nat,
        n: nat, m: nat): map<Key, Object>
    requires n <= m <= |keys| && forall k :: k in keys ==> k.Leg? && k.file in bodies
  {
    var written := Records(w, keys, base, n);
    RolledBack(Overwritten(Placed(objects, keys, bodies, base, m), w, written), w, written, n)
  }

  lemma {:induction false} RollbackAtPut(objects: map<Key, Object>, w: World, keys: seq<Key>, bodies: map<File,
        Body>, base: nat, n: nat, m: nat, i: nat)
    requires i < n <= m <= |keys| && (forall k :: k in keys ==> k.Leg? && k.file in bodies) && Distinct(keys)
    ensures keys[i] in AfterRollback(objects, w, keys, bodies, base, n, m) <==> Spared(w, keys[i])
  {
    var k, placed, written := keys[i], Placed(objects, keys, bodies, base, m), Records(w, keys, base, n);
    PlacedAt(objects, keys, bodies, base, m, k);
    RecordsDistinct(w, keys, base, n, k);
    RolledBackAt(Overwritten(placed, w, written), w, written, n, k);
    assert written[i] == Upload(k, EtagSeen(w, k, base + i));
    assert placed[k] == Object(bodies[k.file], Issued(base + i));
    hide Placed, RolledBack, Undo, Spared, WroteKey, Overwritten;
    SparedOrDeleted(placed, w, written, written[i]);
  }

  /** The rollback does not touch what the run did not record. */
  lemma {:induction false} RollbackElsewhere(objects: map<Key, Object>, w: World, keys: seq<Key>, bodies: map<File,
        Body>, base: nat, n: nat, m: nat, k: Key)
    requires n <= m <= |keys| && (forall k :: k in keys ==> k.Leg? && k.file in bodies) && Distinct(keys) && k !in keys[..n]
    ensures SameAt(Placed(objects, keys, bodies, base, m), AfterRollback(objects, w, keys, bodies, base, n, m), k)
  {
    var placed, written := Placed(objects, keys, bodies, base, m), Records(w, keys, base, n);
    RecordsDistinct(w, keys, base, n, k);
    RolledBackAt(Overwritten(placed, w, written), w, written, n, k);
    hide Placed, RolledBack, Undo, WroteKey;
  }

  function UploadedKeys(written: seq<Upload>): seq<Key> {
    seq(|written|, i requires 0 <= i < |written| => written[i].key)
  }

  /** Every key holds its leg's body and every other object is as before. */
  ghost predicate AllPlaced(before: map<Key, Object>, after: map<Key, Object>, keys: seq<Key>, bodies: map<File, Body>) {
    forall k ::
      if k in keys then k in after && k.Leg? && k.file in bodies && after[k].body == bodies[k.file]
      else SameAt(before, after, k)
  }

  lemma {:induction false} PlacedEverywhere(objects: map<Key, Object>, keys: seq<Key>, bodies: map<File, Body>, base: nat)
    requires (forall k :: k in keys ==> k.Leg? && k.file in bodies) && Distinct(keys)
    ensures AllPlaced(objects, Placed(objects, keys, bodies, base, |keys|), keys, bodies)
  {
    assert keys[..|keys|] == keys;
    forall k
      ensures var after := Placed(objects, keys, bodies, base, |keys|);
              if k in keys then k in after && after[k].body == bodies[k.file] else SameAt(objects, after, k)
    {
      PlacedAt(objects, keys, bodies, base, |keys|, k);
    }
  }

  ghost predicate BodiesOf(w: World, bodies: map<File, Body>) {
    forall f: File :: f in bodies && GoodDump(w.dump(f)) && bodies[f] == Encrypted(w.dump(f).text)
  }

  lemma {:induction false} RolledBackEverywhere(objects: map<Key, Object>, w: World, keys: seq<Key>,
        bodies: map<File, Body>, base: nat, n: nat, m: nat)
    requires n < |keys| && (forall k :: k in keys ==> k.Leg? && k.file in bodies) && Distinct(keys) && BodiesOf(w, bodies)
    requires m == if keys[n] in w.landed then n + 1 else n
    ensures AfterFailedUpload(objects, AfterRollback(objects, w, keys, bodies, base, n, m), w, keys, n)
  {
    hide AfterRollback, Spared, Placed;
    var placed, after := Placed(objects, keys, bodies, base, m), AfterRollback(objects, w, keys, bodies, base, n, m);
    forall k | k in keys[..n]
      ensures k in after <==> Spared(w, k)
    {
      var i :| 0 <= i < n && keys[..n][i] == k;
      RollbackAtPut(objects, w, keys, bodies, base, n, m, i);
    }
    forall k | k !in keys[..n]
      ensures if k == keys[n] && k in w.landed then HoldsLeg(after, w, k) else SameAt(objects, after, k)
    {
      RollbackElsewhere(objects, w, keys, bodies, base, n, m, k);
      PlacedAt(objects, keys, bodies, base, m, k);
      if k == keys[n] && k in w.landed {
        assert keys[..m][n] == k;
      } else {
        NotPlaced(keys, n, m, k);
      }
    }
  }

  lemma {:induction false} NotPlaced(keys: seq<Key>, n: nat, m: nat, k: Key)
    requires n <= m <= n + 1 && m <= |keys| && k !in keys[..n] && (m == n || keys[n] != k)
    ensures k !in keys[..m]
  {
  }

  lemma {:induction false} PlacedNext(objects: map<Key, Object>, keys: seq<Key>, bodies: map<File, Body>, base: nat, n: nat)
    requires n < |keys| && forall k :: k in keys ==> k.Leg? && k.file in bodies
    ensures Placed(objects, keys, bodies, base, n + 1)
         == Placed(objects, keys, bodies, base, n)[keys[n] := Object(bodies[keys[n].file], Issued(base + n))]
  {
  }

  /** The put that raised may have taken effect all the same. */
  method Land(b: Bucket, w: World, key: Key, body: Body)
    modifies b`objects, b`nextEtag
    ensures b.objects == if key in w.landed then old(b.objects)[key := Object(body, Issued(old(b.nextEtag)))] else old(b.objects)
  {
    if key in w.landed {
      b.objects := b.objects[key := Object(body, Issued(b.nextEtag))];
      b.nextEtag := b.nextEtag + 1;
    }
  }

  /** The failure path: the put that raised may have landed, others may have overwritten
      what went up, and the rollback undoes what the run recorded. */
  method FailUpload(b: Bucket, w: World, keys: seq<Key>, bodies: map<File, Body>, written: seq<Upload>,
        ghost objects: map<Key, Object>, ghost base: nat)
    requires (forall k :: k in keys ==> k.Leg? && k.file in bodies) && Distinct(keys) && BodiesOf(w, bodies)
    requires |written| < |keys| && UploadedSoFar(b, w, keys, bodies, objects, base, written)
    modifies b`objects, b`nextEtag
    ensures AfterFailedUpload(objects, b.objects, w, keys, |written|)
  {
    var failed := keys[|written|];
    ghost var m := if failed in w.landed then |written| + 1 else |written|;
    hide Placed, RolledBack, Overwritten, AfterFailedUpload, BodiesOf, Distinct, Records;
    PlacedNext(objects, keys, bodies, base, |written|);
    Land(b, w, failed, bodies[failed.file]);
    assert b.objects == Placed(objects, keys, bodies, base, m);
    hide UploadedSoFar;
    b.objects := Overwritten(b.objects, w, written);
    Rollback(b, w, written);
    RolledBackEverywhere(objects, w, keys, bodies, base, |written|, m);
  }

  /** The upload loop with its failure path: all of the set, or a rollback of what went up. */
  method UploadSet(b: Bucket, w: World, day: nat, bodies: map<File, Body>) returns (r: Result<seq<Key>>)
    requires BodiesOf(w, bodies)
    modifies b`objects, b`nextEtag
    ensures r.Ok? <==> forall k :: k in RunKeys(day) ==> k !in w.putRaises
    ensures r.Ok? ==> r.value == RunKeys(day) && AllPlaced(old(b.objects), b.objects, RunKeys(day), bodies)
    ensures r.Err? ==> r.error.UploadFailed? && r.error.key in w.putRaises && exists n ::
              && 0 <= n < |RunKeys(day)| && RunKeys(day)[n] == r.error.key
              && AfterFailedUpload(old(b.objects), b.objects, w, RunKeys(day), n)
  {
    ghost var objects, base := b.objects, b.nextEtag;
    var keys := RunKeys(day);
    RunKeysAre(day);
    hide RunKeys, Placed, AfterFailedUpload, AllPlaced;
    var written, failed := UploadAll(b, w, day, bodies);
    if failed.Some? {
      FailUpload(b, w, keys, bodies, written, objects, base);
      return Err(UploadFailed(failed.value));
    }
    PlacedEverywhere(objects, keys, bodies, base);
    r := Ok(UploadedKeys(written));
    assert UploadedKeys(written) == keys;
  }

  /** The sentinel is no key of the set, so what the uploads did holds of the bucket before it too. */
  lemma {:induction false} UploadsAfterSentinel(before: map<Key, Object>, started: map<Key, Object>, after: map<Key, Object>,
      w: World, bodies: map<File, Body>, day: nat, initBucket: bool)
    requires OnlySentinel(before, started, initBucket)
    ensures forall n :: 0 <= n < |RunKeys(day)| && AfterFailedUpload(started, after, w, RunKeys(day), n)
              ==> AfterFailedUpload(before, after, w, RunKeys(day), n)
    ensures AllPlaced(started, after, RunKeys(day), bodies) && BodiesOf(w, bodies) ==>
              && CompleteSet(after, w, day)
              && forall k :: k != Sentinel && k !in RunKeys(day) ==> SameAt(before, after, k)
  {
    var keys := RunKeys(day);
    hide RunKeys, Spared;
    forall k | k != Sentinel && SameAt(started, after, k)
      ensures SameAt(before, after, k)
    {
      assert SameAt(before, started, k);
    }
    if AllPlaced(started, after, keys, bodies) && BodiesOf(w, bodies) {
      forall k
        ensures if k in keys then HoldsLeg(after, w, k) else SameAt(started, after, k)
      {
      }
    }
    forall n | 0 <= n < |keys| && AfterFailedUpload(started, after, w, keys, n)
      ensures AfterFailedUpload(before, after, w, keys, n)
    {
    }
  }

  /** Nothing stops the run before its set is up. */
  ghost predicate Uploads(w: World, before: map<Key, Object>, day: nat, initBucket: bool) {
    && Opens(w, before, initBucket)
    && (forall f :: GoodDump(w.dump(f)))
    && forall k :: k in RunKeys(day) ==> k !in w.putRaises
  }

  /** Up to and with the uploads: the sentinel, the dumps, the set. */
  method TakeBackup(b: Bucket, w: World, day: nat, initBucket: bool) returns (r: Result<seq<Key>>)
    modifies b`objects, b`nextEtag
    ensures r.Ok? <==> Uploads(w, old(b.objects), day, initBucket)
    ensures r.Err? ==> BeforeUploads(r.error) || r.error.UploadFailed?
    ensures r.Err? && BeforeUploads(r.error) ==> OnlySentinel(old(b.objects), b.objects, initBucket)
    ensures r.Err? && r.error.UploadFailed? ==> exists n ::
              && 0 <= n < |RunKeys(day)| && RunKeys(day)[n] == r.error.key
              && AfterFailedUpload(old(b.objects), b.objects, w, RunKeys(day), n)
    ensures r.Ok? ==> r.value == RunKeys(day) && SetTaken(old(b.objects), b.objects, w, day)
  {
    RunKeysAre(day);
    hide RunKeys, Spared;
    var refused := VerifyBucket(b, w, initBucket);
    if refused.Some? {
      return Err(refused.value);
    }
    var dumped := DumpLegs(w);
    if dumped.Err? {
      return Err(dumped.error);
    }
    ghost var started := b.objects;
    r := UploadSet(b, w, day, dumped.value);
    UploadsAfterSentinel(old(b.objects), started, b.objects, w, dumped.value, day, initBucket);
  }

  /** The day's set is complete and, but for the sentinel, nothing else moved. */
  ghost predicate SetTaken(before: map<Key, Object>, after: map<Key, Object>, w: World, day: nat) {
    && CompleteSet(after, w, day)
    && forall k :: k != Sentinel && k !in RunKeys(day) ==> SameAt(before, after, k)
  }

  /** The day's own set counts for nothing in the history check. */
  lemma {:induction false} SetIsNoHistory(before: map<Key, Object>, after: map<Key, Object>, w: World, day: nat, initBucket: bool)
    requires SetTaken(before, after, w, day)
    ensures HistoryPasses(ListedDates(after), day, initBucket) <==> HistoryPasses(ListedDates(before), day, initBucket)
  {
    RunKeysAre(day);
    hide RunKeys, CompleteSet, Listed;
    forall d: int | d != day
      ensures d in ListedDates(after) <==> d in ListedDates(before)
    {
      OtherDatesStay(before, after, w, day, d);
    }
  }

  lemma {:induction false} OtherDatesStay(before: map<Key, Object>, after: map<Key, Object>, w: World, day: nat, d: int)
    requires SetTaken(before, after, w, day) && d != day
    ensures Listed(before, d) <==> Listed(after, d)
  {
    RunKeysAre(day);
    hide RunKeys, CompleteSet;
    if k :| k in before && k.Leg? && k.tier == Daily && k.day == d {
      assert SameAt(before, after, k);
    }
    if k :| k in after && k.Leg? && k.tier == Daily && k.day == d {
      assert SameAt(before, after, k);
    }
  }

  /** The run gets as far as the rules: its set goes up, the bucket can be listed, and what
      was there before passes the history check. */
  ghost predicate GetsToRules(w: World, before: map<Key, Object>, after: map<Key, Object>, day: nat, initBucket: bool) {
    && Uploads(w, before, day, initBucket)
    && !ListingRaises(w.listing(after))
    && HistoryPasses(ListedDates(before), day, initBucket)
  }

  predicate AtRules<T>(r: Result<T>) {
    r.Ok? || r.error.LifecycleUnreadable? || r.error.LifecycleNotWritten?
  }

  /** The whole run. The rules change only once a complete set is up and the history has
      passed; a run that fails changes them exactly when the write of them lands and raises. */
  method RunBackup(b: Bucket, w: World, p: Policy, day: nat, initBucket: bool) returns (r: Result<seq<Key>>)
    requires ListsTruly(w)
    modifies b
    ensures r.Err? ==> BeforeUploads(r.error) || r.error.UploadFailed? || AfterUploads(r.error)
    ensures r.Err? && BeforeUploads(r.error) ==> OnlySentinel(old(b.objects), b.objects, initBucket)
    ensures r.Err? && r.error.UploadFailed? ==> exists n ::
              && 0 <= n < |RunKeys(day)| && RunKeys(day)[n] == r.error.key
              && AfterFailedUpload(old(b.objects), b.objects, w, RunKeys(day), n)
    ensures r.Ok? || AfterUploads(r.error) ==>
              && CompleteSet(b.objects, w, day)
              && forall k :: k != Sentinel && k !in RunKeys(day) ==> SameAt(old(b.objects), b.objects, k)
    ensures r.Ok? ==> r.value == RunKeys(day) && (Sentinel in old(b.objects) || initBucket)
    ensures AtRules(r) ==> HistoryPasses(ListedDates(b.objects), day, initBucket)
    ensures r.Err? && r.error.HistoryRejected? ==> !HistoryPasses(ListedDates(b.objects), day, initBucket)
    ensures AtRules(r) <==> GetsToRules(w, old(b.objects), b.objects, day, initBucket)
    ensures AtRules(r) ==> (r == Err(LifecycleNotWritten) <==> MayWriteRules(w) && w.writing.WriteBroken?)
    ensures AtRules(r) ==> (r == Err(LifecycleUnreadable) <==> w.reading.ReadBroken?)
    ensures r.Err? ==> b.rules == RulesAfterFailure(old(b.rules), p, w, r.error)
    ensures r.Err? && b.rules != old(b.rules) <==>
              && GetsToRules(w, old(b.objects), b.objects, day, initBucket)
              && MayWriteRules(w) && w.writing == WriteBroken(true) && old(b.rules) != OwnedRules(p)
    ensures r.Ok? ==> b.rules == if w.reading.ReadDenied? || w.writing.WriteDenied? then old(b.rules) else OwnedRules(p)
  {
    r := TakeBackup(b, w, day, initBucket);
    if r.Err? {
      return;
    }
    SetIsNoHistory(old(b.objects), b.objects, w, day, initBucket);
    hide RunKeys, Spared, ListsTruly, AfterFailedUpload, OnlySentinel, HistoryPasses, ListedDates, ListingRaises, GoodDump;
    var rejected := ProtectHistory(b, w, p, day, initBucket);
    if rejected.Some? {
      r := Err(rejected.value);
    }
  }

  /** The checks after the uploads; the objects are no longer touched. */
  method ProtectHistory(b: Bucket, w: World, p: Policy, day: nat, initBucket: bool) returns (e: Option<Error>)
    requires ListsTruly(w)
    modifies b`rules
    ensures e.Some? ==> AfterUploads(e.value)
    ensures (e.None? || e.value.LifecycleUnreadable? || e.value.LifecycleNotWritten?) <==>
              !ListingRaises(w.listing(b.objects)) && HistoryPasses(ListedDates(b.objects), day, initBucket)
    ensures e.Some? && e.value.HistoryRejected? ==> !HistoryPasses(ListedDates(b.objects), day, initBucket)
    ensures e.None? || e.value.LifecycleUnreadable? || e.value.LifecycleNotWritten? ==>
              && (e == Some(LifecycleNotWritten) <==> MayWriteRules(w) && w.writing.WriteBroken?)
              && (e == Some(LifecycleUnreadable) <==> w.reading.ReadBroken?)
    ensures e.Some? ==> b.rules == RulesAfterFailure(old(b.rules), p, w, e.value)
    ensures e.None? ==> b.rules == if w.reading.ReadDenied? || w.writing.WriteDenied? then old(b.rules) else OwnedRules(p)
  {
    hide ListsTruly, ListingRaises, HistoryPasses;
    var dates := ListDates(b, w);
    if dates.None? {
      return Some(ListFailed);
    }
    var verdict := CheckHistory(dates.value, day, initBucket);
    if verdict != HistoryOk {
      return Some(HistoryRejected(verdict));
    }
    e := EnsureLifecycleRules(b, w, p);
  }

  // ----- a run that fails and changes retention -----

  /** A bucket that lists its dates one day to a page, as far as the last one it holds. */
  function DayByDay(objects: map<Key, Object>): Listing {
    (k: nat, token: string) =>
      Some(Page(if HasDaily(objects, k) then [Some(k)] else [], exists d :: d in DailyDays(objects) && d > k, Some("next")))
  }

  function DailyDays(objects: map<Key, Object>): set<nat> {
    set key | key in objects && key.Leg? && key.tier == Daily :: key.day
  }

  predicate HasDaily(objects: map<Key, Object>, day: nat) {
    day in DailyDays(objects)
  }

  lemma {:induction false} Bounded(days: set<nat>) returns (n: nat)
    ensures forall d :: d in days ==> d <= n
  {
    if days == {} {
      n := 0;
    } else {
      var d: nat :| d in days;
      n := Bounded(days - {d});
      n := if d > n then d else n;
      assert forall x :: x in days ==> x == d || x in days - {d};
    }
  }

  lemma {:induction false} DayByDayResponds(objects: map<Key, Object>, k: nat)
    ensures Response(DayByDay(objects), k)
         == Some(Page(if HasDaily(objects, k) then [Some(k)] else [], exists d :: d in DailyDays(objects) && d > k, Some("next")))
  {
  }

  lemma {:induction false} DayByDayIsTrue(objects: map<Key, Object>)
    ensures TrueListing(DayByDay(objects), objects) && !ListingRaises(DayByDay(objects))
  {
    var serve := DayByDay(objects);
    forall k: nat
      ensures Response(serve, k).Some? && OnPage(Response(serve, k), k) == HasDaily(objects, k)
      ensures forall d :: OnPage(Response(serve, k), d) ==> d == k
      ensures Ends(Response(serve, k)) <==> forall d :: d in DailyDays(objects) ==> d <= k
    {
      DayByDayResponds(objects, k);
    }
    hide Response, DayByDay, Ends, OnPage;
    var last := Bounded(DailyDays(objects));
    assert Ends(Response(serve, last));
    forall n, d | LastCall(serve, n)
      ensures Collected(serve, n, d) <==> Listed(objects, d)
    {
      if Listed(objects, d) {
        var key :| key in objects && key.Leg? && key.tier == Daily && key.day == d;
        assert key.day in DailyDays(objects);
        assert OnPage(Response(serve, d), d);
      }
      if k :| 0 <= k <= n && OnPage(Response(serve, k), d) {
        assert HasDaily(objects, k);
      }
    }
  }

  /** All goes well, but for the write of the rules, which lands and raises. */
  function RuleWriteLost(): World {
    World(false, false, false, _ => Dumped(seq(MIN_LEG_BYTES, _ => 'x'), true), {}, {}, {}, map[], {}, {}, DayByDay,
          Readable, WriteBroken(true))
  }

  /** A bucket with its sentinel and a backup of day 9. */
  function LastBackup(): map<Key, Object> {
    map[Sentinel := Object(Marker, Foreign(0)), Leg(Daily, 9, Roles) := Object(Unknown(0), Foreign(1))]
  }

  lemma RuleWriteLostLists()
    ensures ListsTruly(RuleWriteLost())
    ensures forall left :: !ListingRaises(RuleWriteLost().listing(left))
  {
    hide TrueListing, ListingRaises, DayByDay;
    forall left: map<Key, Object>
      ensures TrueListing(RuleWriteLost().listing(left), left) && !ListingRaises(RuleWriteLost().listing(left))
    {
      DayByDayIsTrue(left);
    }
  }

  lemma LastBackupIsHistory()
    ensures HistoryPasses(ListedDates(LastBackup()), 10, false)
  {
    assert Leg(Daily, 9, Roles) in LastBackup();
    assert Listed(LastBackup(), 9);
  }

  lemma RuleWriteIsReached()
    ensures forall left :: GetsToRules(RuleWriteLost(), LastBackup(), left, 10, false)
    ensures MayWriteRules(RuleWriteLost()) && RuleWriteLost().writing == WriteBroken(true)
  {
    RuleWriteLostLists();
    LastBackupIsHistory();
    hide ListingRaises, HistoryPasses, RunKeys, ListedDates, DayByDay;
  }

  /** The documented promise that a failed run leaves retention alone, broken: yesterday's
      backup is there, today's goes up, the run fails, and the rules are other ones. */
  method FailedRunMutatesRetention() returns (before: seq<Rule>, after: seq<Rule>, r: Result<seq<Key>>)
    ensures r == Err(LifecycleNotWritten)
    ensures before == [Rule(Daily, 30)] && after == OwnedRules(Policy(7, 28, 180)) != before
  {
    before := [Rule(Daily, 30)];
    var b := new Bucket(LastBackup(), before);
    RuleWriteLostLists();
    RuleWriteIsReached();
    hide RuleWriteLost, LastBackup, ListsTruly, GetsToRules, RunKeys, Listed, CompleteSet, HistoryPasses, AfterFailedUpload;
    r := RunBackup(b, RuleWriteLost(), Policy(7, 28, 180), 10, false);
    after := b.rules;
  }

  /** On a day with nothing stored yet, a failed upload leaves the date listed exactly
      when the rollback had to spare one of the daily keys it had put, or the put that
      raised took effect on one. */
  lemma {:induction false} LeftoverIffSpared(before: map<Key, Object>, after: map<Key, Object>, w: World, day: nat, n: nat)
    requires n < |RunKeys(day)| && AfterFailedUpload(before, after, w, RunKeys(day), n) && !Listed(before, day)
    ensures Listed(after, day) <==> exists i ::
          0 <= i <= n && RunKeys(day)[i].Leg? && RunKeys(day)[i].tier == Daily
          && if i < n then Spared(w, RunKeys(day)[i]) else RunKeys(day)[i] in w.landed
  {
    var keys := RunKeys(day);
    RunKeysAre(day);
    hide RunKeys, Spared;
    assert forall k :: k in keys[..n] ==> k in keys;
    assert keys[n] !in keys[..n];
    if k :| k in after && k.Leg? && k.tier == Daily && k.day == day {
      assert k in keys[..n] || (k == keys[n] && k in w.landed) || SameAt(before, after, k);
      if k in keys[..n] {
        var i :| 0 <= i < n && keys[..n][i] == k;
        assert keys[i] == k;
      }
    }
    if i :| 0 <= i <= n && keys[i].Leg? && keys[i].tier == Daily
          && if i < n then Spared(w, keys[i]) else keys[i] in w.landed {
      assert keys[i] in keys;
      if i < n {
        assert keys[..n][i] == keys[i];
      }
    }
  }

  // ----- the dry run -----

  function PlannedTier(tier: Tier, day: nat): seq<Key> {
    seq(|LEGS|, i requires 0 <= i < |LEGS| => Leg(tier, day, LEGS[i]))
  }

  /** The dry run lists its keys tier by tier. */
  function PlannedKeys(tiers: seq<Tier>, day: nat): seq<Key> {
    if |tiers| == 0 then [] else PlannedKeys(tiers[..|tiers| - 1], day) + PlannedTier(tiers[|tiers| - 1], day)
  }

  lemma {:induction false} PlannedMembers(tiers: seq<Tier>, day: nat, k: Key)
    ensures k in PlannedKeys(tiers, day) <==> k.Leg? && k.day == day && k.tier in tiers
    ensures |PlannedKeys(tiers, day)| == 3 * |tiers|
  {
    if |tiers| > 0 {
      var m := |tiers| - 1;
      PlannedMembers(tiers[..m], day, k);
      assert tiers == tiers[..m] + [tiers[m]];
      if k.Leg? && k.day == day && k.tier == tiers[m] {
        var j := AllLegs(k.file);
        assert PlannedTier(tiers[m], day)[j] == k;
      }
    }
  }

  /** The dry run announces exactly the keys that a real run uploads, in another order. */
  lemma {:induction false} DryRunAnnouncesTheRun(day: nat, k: Key)
    ensures k in PlannedKeys(TiersForDate(day), day) <==> k in RunKeys(day)
    ensures |PlannedKeys(TiersForDate(day), day)| == |RunKeys(day)|
  {
    PlannedMembers(TiersForDate(day), day, k);
    RunKeysAre(day);
  }
}
