/** The restore and delete tasks as programs over a mutable bucket whose requests may fail, with or
    without effect. */
module CloudTasks {
  import opened Wrappers
  import opened Text
  import opened Sorting
  import opened ManifestKeys
  import opened CloudRestore
  import opened CloudRuns
  import opened CloudDuplicates
  import opened CloudTheorems

  /** The object store. A failed request may have taken effect, as after a timeout. A store may list
      its keys in ascending order or in any order. `failures` counts the failed requests. */
  class CloudBucket {
    const ascending: bool
    var objects: Bucket
    ghost var failures: nat

    constructor (contents: Bucket, ascending: bool)
      ensures objects == contents && this.ascending == ascending && failures == 0
    {
      objects, this.ascending, failures := contents, ascending, 0;
    }

    method ListObjects(prefix: string) returns (ok: bool, keys: seq<string>)
      modifies this`failures
      ensures failures == old(failures) + if ok then 0 else 1
      ensures ok ==> Distinct(keys) && forall k :: k in keys <==> k in objects && prefix <= k
      ensures ok && ascending ==> Sorted(keys, StringLe)
    {
      ok := *;
      if !ok { failures := failures + 1; }
      keys := Enumerate(set k | k in objects && prefix <= k);
      if ascending {
        SortPermutes(keys, StringLe);
        DistinctIsPermutable(keys, Sort(keys, StringLe));
        StringLeIsTotalOrder();
        SortSorts(keys, StringLe);
        keys := Sort(keys, StringLe);
      }
    }

    method CopyObject(src: string, dst: string) returns (ok: bool)
      modifies this
      ensures ok ==> src in old(objects) && objects == ApplyOp(old(objects), Copy(src, dst))
      ensures !ok ==> objects == old(objects) || objects == ApplyOp(old(objects), Copy(src, dst))
      ensures failures == old(failures) + if ok then 0 else 1
    {
      failures := failures + 1;
      if src !in objects { return false; }
      var effect: bool := *;
      if effect { objects := objects[dst := objects[src]]; }
      ok := *;
      ok := ok && effect;
      if ok { failures := failures - 1; }
    }

    /** Deleting checks first that the object exists. */
    method DeleteObject(key: string) returns (ok: bool)
      modifies this
      ensures ok ==> key in old(objects) && objects == ApplyOp(old(objects), Delete(key))
      ensures !ok ==> objects == old(objects) || objects == ApplyOp(old(objects), Delete(key))
      ensures failures == old(failures) + if ok then 0 else 1
    {
      failures := failures + 1;
      if key !in objects { return false; }
      var effect: bool := *;
      if effect { objects := objects - {key}; }
      ok := *;
      ok := ok && effect;
      if ok { failures := failures - 1; }
    }
  }

  lemma {:induction false} ApplyOpsPush(b: Bucket, ops: seq<Op>, op: Op)
    ensures ApplyOps(b, ops + [op]) == ApplyOp(ApplyOps(b, ops), op)
    decreases |ops|
  {
    if ops == [] {
      assert [op][1..] == [];
    } else {
      assert (ops + [op])[1..] == ops[1..] + [op];
      ApplyOpsPush(ApplyOp(b, ops[0]), ops[1..], op);
    }
  }

  /** `objects` is `start` with the first `n` requests of the plan done. */
  ghost predicate DoneSoFar(start: Bucket, objects: Bucket, plan: Plan, n: nat) {
    n <= |plan.ops| && objects == ApplyOps(start, plan.ops[..n])
  }

  lemma NextDone(start: Bucket, objects: Bucket, plan: Plan, n: nat)
    requires DoneSoFar(start, objects, plan, n) && n < |plan.ops|
    ensures DoneSoFar(start, ApplyOp(objects, plan.ops[n]), plan, n + 1)
  {
    assert plan.ops[..n + 1] == plan.ops[..n] + [plan.ops[n]];
    ApplyOpsPush(start, plan.ops[..n], plan.ops[n]);
  }

  datatype TaskError = RequestFailed | BadManifestName

  /** The plan for the listing was followed for `done` requests, to its end if all is well. */
  ghost predicate Attempted(before: Bucket, after: Bucket, dir: string, listing: seq<string>, stamp: string,
                            done: nat, r: Result<Outcome, TaskError>)
  {
    && IsListing(before, dir, listing)
    && RestorePlan(listing, dir, stamp).Some?
    && var plan := RestorePlan(listing, dir, stamp).value;
       && DoneSoFar(before, after, plan, done)
       && (r.Ok? ==> done == |plan.ops| && r.value == plan.outcome)
  }

  /** One partition: list, plan, carry out the requests up to the first failure. `listing` and
      `done` record what was listed and how far the plan got. */
  method ProcessPartitionRestore(bucket: CloudBucket, dir: string, stamp: string)
    returns (r: Result<Outcome, TaskError>, ghost listing: seq<string>, ghost done: nat)
    modifies bucket
    ensures r.Err? && r.error == BadManifestName ==> bucket.objects == old(bucket.objects)
    ensures bucket.objects != old(bucket.objects) || r.Ok? ==>
              && Attempted(old(bucket.objects), bucket.objects, dir, listing, stamp, done, r)
              && (bucket.ascending ==> Sorted(listing, StringLe))
    ensures bucket.failures == old(bucket.failures) + if r == Err(RequestFailed) then 1 else 0
    ensures r == Err(BadManifestName) ==>
              IsListing(old(bucket.objects), dir, listing) && RestorePlan(listing, dir, stamp).None?
  {
    done := 0;
    var ok, keys := bucket.ListObjects(ManifestPrefix(dir));
    listing := keys;
    if !ok { return Err(RequestFailed), listing, done; }
    match FirstMatch(keys, StampPattern(stamp))
    case Some(backup) =>
      var term := ExtractTermFromBackup(backup, stamp);
      if term.None? { return Err(BadManifestName), listing, done; }
      var maxTerm := HighestTerm(keys, StampPattern(stamp)).GetOr(term.value);
      ghost var plan := RestorePlan(keys, dir, stamp).value;
      assert DoneSoFar(bucket.objects, bucket.objects, plan, 0);
      NextDone(bucket.objects, bucket.objects, plan, 0);
      var copied := bucket.CopyObject(backup, CurrentKey(dir, maxTerm));
      done := if bucket.objects == old(bucket.objects) && !copied then 0 else 1;
      r := if copied then Ok(Restored) else Err(RequestFailed);
    case None =>
      var current := CurrentNames(keys);
      ghost var plan := RestorePlan(keys, dir, stamp).value;
      for i := 0 to |current|
        invariant DoneSoFar(old(bucket.objects), bucket.objects, plan, i)
        invariant bucket.failures == old(bucket.failures)
      {
        NextDone(old(bucket.objects), bucket.objects, plan, i);
        ghost var before := bucket.objects;
        var deleted := bucket.DeleteObject(current[i]);
        if !deleted {
          done := if bucket.objects == before then i else i + 1;
          return Err(RequestFailed), listing, done;
        }
      }
      done := |current|;
      r := Ok(if current != [] then Deleted else Skipped);
  }

  /** Part of a plan is progress on its partition, and the whole plan restores it. */
  lemma PartialPlanIsProgress(b: Bucket, b': Bucket, dir: string, listing: seq<string>, stamp: nat, n: nat)
    requires Restorable(b, dir, stamp) && FindsFirst(b, dir, listing, stamp)
    requires RestorePlan(listing, dir, Decimal(stamp)).Some?
    requires DoneSoFar(b, b', RestorePlan(listing, dir, Decimal(stamp)).value, n)
    ensures Progress(b, b', dir, stamp)
    ensures n == |RestorePlan(listing, dir, Decimal(stamp)).value.ops| ==> b' == RestoreDir(b, dir, stamp)
  {
    var ops := RestorePlan(listing, dir, Decimal(stamp)).value.ops;
    PlanRestores(b, dir, listing, stamp);
    BackupTermFacts(b, dir, stamp);
    if n == |ops| {
      assert ops[..n] == ops;
      WholeDirProgress(b, dir, stamp);
    } else if BackupTerm(b, dir, stamp).None? {
      FoundNothing(b, dir, listing, stamp);
      DeletePlan(b, dir, listing, stamp);
      var current := CurrentNames(listing);
      assert ops[..n] == DeleteOps(current[..n]);
      ApplyDeletes(b, current[..n]);
      assert forall k :: k in current[..n] ==> k in current;
    } else {
      FoundBackup(b, dir, listing, stamp, BackupTerm(b, dir, stamp).value);
      CopyPlan(b, dir, listing, stamp, BackupTerm(b, dir, stamp).value);
      assert ops[..0] == [];
    }
  }

  method ListTablePartitionDirs(bucket: CloudBucket) returns (ok: bool, dirs: seq<string>)
    modifies bucket`failures
    ensures ok ==> Enumerates(dirs, bucket.objects)
    ensures bucket.failures == old(bucket.failures) + if ok then 0 else 1
  {
    ok := *;
    if !ok { bucket.failures := bucket.failures + 1; }
    dirs := Enumerate(PartitionDirs(bucket.objects.Keys));
  }

  /** How many of the partitions have a backup at the stamp. */
  ghost function WithBackup(b: Bucket, order: seq<string>, stamp: nat): nat {
    if order == [] then 0
    else WithBackup(b, order[..|order| - 1], stamp) + (if BackupTerm(b, order[|order| - 1], stamp).Some? then 1 else 0)
  }

  /** How many of the partitions have no backup at the stamp, but a current manifest. */
  ghost function Emptied(b: Bucket, order: seq<string>, stamp: nat): nat {
    if order == [] then 0
    else
      Emptied(b, order[..|order| - 1], stamp) + (if LosesAll(b, order[|order| - 1], stamp) then 1 else 0)
  }

  ghost predicate LosesAll(b: Bucket, dir: string, stamp: nat) {
    (forall t: nat :: BackupKey(dir, t, stamp) !in b) && exists t: nat :: CurrentKey(dir, t) in b
  }

  datatype RestoreReport = RestoreReport(status: int, restored: nat, skipped: nat, deleted: nat, errors: nat)

  lemma {:induction false} RestoreAllPush(b: Bucket, order: seq<string>, stamp: nat, d: string)
    ensures RestoreAll(b, order + [d], stamp) == RestoreDir(RestoreAll(b, order, stamp), d, stamp)
    decreases |order|
  {
    if order == [] {
      assert [d][1..] == [];
    } else {
      assert (order + [d])[1..] == order[1..] + [d];
      RestoreAllPush(RestoreDir(b, order[0], stamp), order[1..], stamp, d);
    }
  }

  /** The state of a restore task after the first `i` partitions, whatever order listings have. */
  ghost predicate RestoringSoFar(start: Bucket, now: Bucket, dirs: seq<string>, i: nat, stamp: nat, restored: nat,
                                 deleted: nat, failed: bool) {
    && i <= |dirs| && Distinct(dirs)
    && OthersUntouched(start, now, Dirs(dirs)) && AllRestorable(now, Dirs(dirs), stamp)
    && (forall j :: i <= j < |dirs| ==> Agree(start, now, dirs[j]))
    && (!failed ==> AllShown(start, now, Dirs(dirs[..i]), stamp) && Counted(start, dirs[..i], stamp, restored, deleted))
  }

  ghost predicate Counted(start: Bucket, order: seq<string>, stamp: nat, restored: nat, deleted: nat) {
    restored == WithBackup(start, order, stamp) && deleted == Emptied(start, order, stamp)
  }

  /** The outcome of an untouched partition tells how it counts. */
  lemma OutcomeCounts(start: Bucket, before: Bucket, dir: string, listing: seq<string>, stamp: nat)
    requires Agree(start, before, dir) && Restorable(before, dir, stamp) && IsListing(before, dir, listing)
    ensures var plan := RestorePlan(listing, dir, Decimal(stamp));
            && plan.Some?
            && (plan.value.outcome == Restored <==> BackupTerm(start, dir, stamp).Some?)
            && (plan.value.outcome == Deleted <==> LosesAll(start, dir, stamp))
  {
    PlanShowsABackup(before, dir, listing, stamp);
    AgreeKeys(start, before, dir);
    BackupTermFacts(start, dir, stamp);
  }

  lemma VisitKeepsOthers(start: Bucket, before: Bucket, v: Visit, other: string, stamp: nat)
    requires Agree(start, before, other) && FreeOf(other, {'/'}) && other != v.dir
    requires Restorable(before, v.dir, stamp) && IsListing(before, v.dir, v.listing)
    ensures Agree(start, ApplyOps(before, Requests(v, stamp)), other)
  {
    VisitKeepsRestorable(before, v, stamp);
    CurrentsElsewhere(before, ApplyOps(before, Requests(v, stamp)), v.dir, other);
    AgreeTrans(start, before, ApplyOps(before, Requests(v, stamp)), other);
  }

  lemma VisitDone(start: Bucket, before: Bucket, dirs: seq<string>, i: nat, stamp: nat, restored: nat, deleted: nat,
                  failed: bool, v: Visit)
    requires RestoringSoFar(start, before, dirs, i, stamp, restored, deleted, failed) && i < |dirs|
    requires v.dir == dirs[i] && IsListing(before, dirs[i], v.listing)
    ensures var after := ApplyOps(before, Requests(v, stamp));
            && OthersUntouched(start, after, Dirs(dirs)) && AllRestorable(after, Dirs(dirs), stamp)
            && (forall j :: i + 1 <= j < |dirs| ==> Agree(start, after, dirs[j]))
            && (!failed && IsComplete(v, stamp) ==> AllShown(start, after, Dirs(dirs[..i]) + {dirs[i]}, stamp))
  {
    assert dirs[i] in Dirs(dirs);
    VisitShows(start, before, v, Dirs(dirs), if failed then {} else Dirs(dirs[..i]), stamp);
    forall j | i + 1 <= j < |dirs| ensures Agree(start, ApplyOps(before, Requests(v, stamp)), dirs[j]) {
      assert dirs[j] in Dirs(dirs);
      VisitKeepsOthers(start, before, v, dirs[j], stamp);
    }
  }

  lemma CountOne(start: Bucket, dirs: seq<string>, i: nat, stamp: nat, restored: nat, deleted: nat)
    requires i < |dirs| && Counted(start, dirs[..i], stamp, restored, deleted)
    ensures Counted(start, dirs[..i + 1], stamp,
                    restored + if BackupTerm(start, dirs[i], stamp).Some? then 1 else 0,
                    deleted + if LosesAll(start, dirs[i], stamp) then 1 else 0)
    ensures Dirs(dirs[..i + 1]) == Dirs(dirs[..i]) + {dirs[i]}
  {
    assert dirs[..i + 1] == dirs[..i] + [dirs[i]] && dirs[..i + 1][..i] == dirs[..i];
  }

  lemma PartitionDone(start: Bucket, before: Bucket, after: Bucket, dirs: seq<string>, i: nat, stamp: nat,
                      restored: nat, deleted: nat, failed: bool, listing: seq<string>, done: nat,
                      r: Result<Outcome, TaskError>)
    requires RestoringSoFar(start, before, dirs, i, stamp, restored, deleted, failed) && i < |dirs|
    requires after != before || r.Ok? ==> Attempted(before, after, dirs[i], listing, Decimal(stamp), done, r)
    ensures RestoringSoFar(start, after, dirs, i + 1, stamp, if r == Ok(Restored) then restored + 1 else restored,
                           if r == Ok(Deleted) then deleted + 1 else deleted, failed || r.Err?)
  {
    if after != before || r.Ok? {
      var v := Visit(dirs[i], listing, done);
      assert after == ApplyOps(before, Requests(v, stamp));
      VisitDone(start, before, dirs, i, stamp, restored, deleted, failed, v);
      if !failed && r.Ok? {
        assert dirs[i] in Dirs(dirs);
        OutcomeCounts(start, before, dirs[i], listing, stamp);
        CountOne(start, dirs, i, stamp, restored, deleted);
      }
    }
  }

  /** Every listing of these partitions finds the first backup of the stamp. */
  ghost predicate FirstIsFound(bucket: CloudBucket, b: Bucket, dirs: set<string>, stamp: nat) {
    bucket.ascending || forall d :: d in dirs ==> OneBackup(b, d, stamp)
  }

  /** Then the task does exactly what restoring means. */
  ghost predicate RestoringExactly(start: Bucket, now: Bucket, dirs: seq<string>, i: nat, stamp: nat, failed: bool) {
    i <= |dirs| && SameGoal(start, now, Dirs(dirs), stamp) && (!failed ==> now == RestoreAll(start, dirs[..i], stamp))
  }

  lemma PartitionExactlyDone(start: Bucket, before: Bucket, after: Bucket, dirs: seq<string>, i: nat, stamp: nat,
                             failed: bool, listing: seq<string>, done: nat, r: Result<Outcome, TaskError>)
    requires RestoringExactly(start, before, dirs, i, stamp, failed) && i < |dirs|
    requires OthersUntouched(start, before, Dirs(dirs))
    requires after != before || r.Ok? ==> Attempted(before, after, dirs[i], listing, Decimal(stamp), done, r)
    requires after != before || r.Ok? ==> Sorted(listing, StringLe) || OneBackup(start, dirs[i], stamp)
    ensures RestoringExactly(start, after, dirs, i + 1, stamp, failed || r.Err?)
  {
    assert dirs[i] in Dirs(dirs);
    assert dirs[..i + 1] == dirs[..i] + [dirs[i]];
    if after != before || r.Ok? {
      BackupsUntouched(start, before, Dirs(dirs), dirs[i], stamp);
      PartialPlanIsProgress(before, after, dirs[i], listing, stamp, done);
      SameGoalStep(start, before, after, Dirs(dirs), stamp, dirs[i]);
    }
    RestoreAllPush(start, dirs[..i], stamp, dirs[i]);
  }

  ghost predicate RestoreState(bucket: CloudBucket, start: Bucket, now: Bucket, dirs: seq<string>, i: nat, stamp: nat,
                               restored: nat, deleted: nat, failed: bool) {
    && RestoringSoFar(start, now, dirs, i, stamp, restored, deleted, failed)
    && (FirstIsFound(bucket, start, Dirs(dirs), stamp) ==> RestoringExactly(start, now, dirs, i, stamp, failed))
  }

  lemma RestoreStarts(bucket: CloudBucket, start: Bucket, dirs: seq<string>, stamp: nat)
    requires Distinct(dirs) && AllRestorable(start, Dirs(dirs), stamp)
    ensures RestoreState(bucket, start, start, dirs, 0, stamp, 0, 0, false)
  {
    SameGoalStarts(start, Dirs(dirs), stamp);
  }

  lemma NextPartition(bucket: CloudBucket, start: Bucket, before: Bucket, after: Bucket, dirs: seq<string>, i: nat,
                      ts: string, stamp: nat, restored: nat, deleted: nat, failed: bool, listing: seq<string>,
                      done: nat, r: Result<Outcome, TaskError>)
    requires RestoreState(bucket, start, before, dirs, i, stamp, restored, deleted, failed) && i < |dirs|
    requires ts == Decimal(stamp)
    requires after != before || r.Ok? ==>
               && Attempted(before, after, dirs[i], listing, ts, done, r)
               && (bucket.ascending ==> Sorted(listing, StringLe))
    ensures RestoreState(bucket, start, after, dirs, i + 1, stamp, if r == Ok(Restored) then restored + 1 else restored,
                         if r == Ok(Deleted) then deleted + 1 else deleted, failed || r.Err?)
  {
    PartitionDone(start, before, after, dirs, i, stamp, restored, deleted, failed, listing, done, r);
    if FirstIsFound(bucket, start, Dirs(dirs), stamp) {
      assert dirs[i] in Dirs(dirs);
      PartitionExactlyDone(start, before, after, dirs, i, stamp, failed, listing, done, r);
    }
  }

  /** The names of a restorable partition's manifests are never bad. */
  lemma NoBadName(bucket: CloudBucket, start: Bucket, before: Bucket, dirs: seq<string>, i: nat, ts: string, stamp: nat,
                  restored: nat, deleted: nat, failed: bool, listing: seq<string>)
    requires RestoreState(bucket, start, before, dirs, i, stamp, restored, deleted, failed) && i < |dirs|
    requires ts == Decimal(stamp) && IsListing(before, dirs[i], listing)
    ensures RestorePlan(listing, dirs[i], ts).Some?
  {
    assert dirs[i] in Dirs(dirs);
    PlanShowsABackup(before, dirs[i], listing, stamp);
  }

  /** One turn of the loop. */
  method RestoreNext(bucket: CloudBucket, dirs: seq<string>, i: nat, ts: string, ghost start: Bucket, ghost stamp: nat,
                     ghost restored: nat, ghost deleted: nat, ghost failed: bool)
    returns (outcome: Result<Outcome, TaskError>)
    requires i < |dirs| && ts == Decimal(stamp)
    requires RestoreState(bucket, start, bucket.objects, dirs, i, stamp, restored, deleted, failed)
    modifies bucket
    ensures RestoreState(bucket, start, bucket.objects, dirs, i + 1, stamp,
                         if outcome == Ok(Restored) then restored + 1 else restored,
                         if outcome == Ok(Deleted) then deleted + 1 else deleted, failed || outcome.Err?)
    ensures bucket.failures == old(bucket.failures) + if outcome.Err? then 1 else 0
  {
    ghost var before := bucket.objects;
    ghost var listing, done;
    outcome, listing, done := ProcessPartitionRestore(bucket, dirs[i], ts);
    if outcome == Err(BadManifestName) {
      NoBadName(bucket, start, before, dirs, i, ts, stamp, restored, deleted, failed, listing);
    }
    NextPartition(bucket, start, before, bucket.objects, dirs, i, ts, stamp, restored, deleted, failed,
                  listing, done, outcome);
  }

  /** The loop of the restore task: every partition is tried, and the outcomes are counted. */
  method RestorePartitions(bucket: CloudBucket, dirs: seq<string>, ts: string, ghost stamp: nat)
    returns (restored: nat, skipped: nat, deleted: nat, errors: nat)
    requires ts == Decimal(stamp) && Distinct(dirs) && AllRestorable(bucket.objects, Dirs(dirs), stamp)
    modifies bucket
    ensures restored + skipped + deleted + errors == |dirs|
    ensures errors == bucket.failures - old(bucket.failures)
    ensures RestoreState(bucket, old(bucket.objects), bucket.objects, dirs, |dirs|, stamp, restored, deleted,
                         errors > 0)
  {
    restored, skipped, deleted, errors := 0, 0, 0, 0;
    ghost var start := bucket.objects;
    RestoreStarts(bucket, start, dirs, stamp);
    for i := 0 to |dirs|
      invariant restored + skipped + deleted + errors == i && errors == bucket.failures - old(bucket.failures)
      invariant RestoreState(bucket, start, bucket.objects, dirs, i, stamp, restored, deleted, errors > 0)
    {
      var outcome := RestoreNext(bucket, dirs, i, ts, start, stamp, restored, deleted, errors > 0);
      match outcome
      case Ok(Restored) => restored := restored + 1;
      case Ok(Skipped) => skipped := skipped + 1;
      case Ok(Deleted) => deleted := deleted + 1;
      case Err(_) => errors := errors + 1;
    }
  }

  /** The restore task. It changes current manifests only, and when it reports success every partition
      shows one of its backups, or nothing where there is none. If the store lists in ascending order,
      or there are no two backups of the stamp to choose from, the bucket is the restored one after a
      success, and still leads to the same result when the task fails or stops half-way. It reports as
      many errors as requests failed, and after a success how many partitions had a backup, how many lost
      their manifests because they had none, and how many had nothing. */
  method ExecuteRestore(bucket: CloudBucket, snapshotPath: string, ghost stamp: nat)
    returns (r: Result<RestoreReport, TaskError>, ghost order: seq<string>)
    requires Trim(snapshotPath) != "" ==> Trim(snapshotPath) == Decimal(stamp)
    requires AllRestorable(bucket.objects, PartitionDirs(bucket.objects.Keys), stamp)
    modifies bucket
    ensures OthersUntouched(old(bucket.objects), bucket.objects, PartitionDirs(old(bucket.objects.Keys)))
    ensures AllRestorable(bucket.objects, PartitionDirs(old(bucket.objects.Keys)), stamp)
    ensures FirstIsFound(bucket, old(bucket.objects), PartitionDirs(old(bucket.objects.Keys)), stamp) ==>
              SameGoal(old(bucket.objects), bucket.objects, PartitionDirs(old(bucket.objects.Keys)), stamp)
    ensures r.Err? || Trim(snapshotPath) == "" ==> bucket.objects == old(bucket.objects)
    ensures r.Err? ==> bucket.failures == old(bucket.failures) + 1
    ensures Trim(snapshotPath) == "" ==> r == Ok(RestoreReport(1, 0, 0, 0, 0))
    ensures r.Ok? && Trim(snapshotPath) != "" ==>
              && Enumerates(order, old(bucket.objects))
              && r.value.status == (if r.value.errors == 0 then 0 else 1)
              && r.value.errors == bucket.failures - old(bucket.failures)
              && r.value.restored + r.value.skipped + r.value.deleted + r.value.errors == |order|
    ensures r.Ok? && r.value.status == 0 ==>
              && AllShown(old(bucket.objects), bucket.objects, PartitionDirs(old(bucket.objects.Keys)), stamp)
              && r.value.restored == WithBackup(old(bucket.objects), order, stamp)
              && r.value.deleted == Emptied(old(bucket.objects), order, stamp)
              && (FirstIsFound(bucket, old(bucket.objects), PartitionDirs(old(bucket.objects.Keys)), stamp) ==>
                    bucket.objects == RestoreAll(old(bucket.objects), order, stamp))
  {
    order := [];
    ghost var start := bucket.objects;
    SameGoalStarts(start, PartitionDirs(start.Keys), stamp);
    var ts := Trim(snapshotPath);
    if ts == "" { return Ok(RestoreReport(1, 0, 0, 0, 0)), order; }
    var ok, dirs := ListTablePartitionDirs(bucket);
    order := dirs;
    if !ok { return Err(RequestFailed), order; }
    var restored, skipped, deleted, errors := RestorePartitions(bucket, dirs, ts, stamp);
    assert dirs[..|dirs|] == dirs;
    r := Ok(RestoreReport(if errors == 0 then 0 else 1, restored, skipped, deleted, errors));
  }

  /* ---------- delete ---------- */

  /** One partition: every key that ends in the stamp is deleted, going on after failures. */
  method ProcessPartitionDelete(bucket: CloudBucket, dir: string, stamp: string)
    returns (r: Result<nat, TaskError>, ghost listing: seq<string>)
    modifies bucket
    ensures bucket.objects != old(bucket.objects) || r.Ok? ==> IsListing(old(bucket.objects), dir, listing)
    ensures forall k :: k in bucket.objects ==> k in old(bucket.objects) && bucket.objects[k] == old(bucket.objects)[k]
    ensures forall k :: k in old(bucket.objects) && k !in bucket.objects ==>
              k in DeleteKeys(listing, StampPattern(stamp))
    ensures r.Ok? ==> r.value == |old(bucket.objects).Keys| - |bucket.objects.Keys|
    ensures r.Ok? <==> bucket.failures == old(bucket.failures)
    ensures r.Err? ==> bucket.failures > old(bucket.failures)
    ensures r.Ok? ==> forall k :: k in DeleteKeys(listing, StampPattern(stamp)) ==> k !in bucket.objects
  {
    var ok, all := bucket.ListObjects(ManifestPrefix(dir));
    listing := all;
    if !ok { return Err(RequestFailed), listing; }
    var keys := DeleteKeys(all, StampPattern(stamp));
    FilterDistinct(EndsIn(StampPattern(stamp)), all);
    FilterMembers(EndsIn(StampPattern(stamp)), all);
    var deletedCount, errors := 0, 0;
    for i := 0 to |keys|
      invariant deletedCount + errors == i && errors == bucket.failures - old(bucket.failures)
      invariant forall k :: k in bucket.objects ==>
                  k in old(bucket.objects) && bucket.objects[k] == old(bucket.objects)[k]
      invariant forall k :: k in old(bucket.objects) && k !in bucket.objects ==> k in keys
      invariant errors == 0 ==> forall j :: 0 <= j < i ==> keys[j] !in bucket.objects
    {
      var deleted := bucket.DeleteObject(keys[i]);
      if deleted { deletedCount := deletedCount + 1; } else { errors := errors + 1; }
    }
    if errors == 0 { KeysRemoved(old(bucket.objects), bucket.objects, keys); }
    r := if errors == 0 then Ok(deletedCount) else Err(RequestFailed);
  }

  lemma {:induction false} DistinctSize(keys: seq<string>)
    requires Distinct(keys)
    ensures |set k | k in keys| == |keys|
  {
    if keys == [] {
      assert (set k | k in keys) == {};
    } else {
      var rest := keys[1..];
      assert forall i :: 0 <= i < |rest| ==> rest[i] == keys[i + 1] != keys[0];
      DistinctSize(rest);
      assert (set k | k in keys) == {keys[0]} + (set k | k in rest);
    }
  }

  lemma KeysRemoved(before: Bucket, after: Bucket, keys: seq<string>)
    requires Distinct(keys) && forall k :: k in keys ==> k in before && k !in after
    requires forall k :: k in before && k !in keys ==> k in after
    requires forall k :: k in after ==> k in before
    ensures |keys| == |before.Keys| - |after.Keys|
  {
    DistinctSize(keys);
    var gone := set k | k in keys;
    assert before.Keys == after.Keys + gone && after.Keys !! gone;
  }

  datatype DeleteReport = DeleteReport(status: int, recordDeleted: bool, deleted: nat, processed: nat, errors: nat)

  ghost predicate NoStamped(b: Bucket, dir: string, stamp: nat) {
    CurrentKey(dir, stamp) !in b && forall t: nat :: BackupKey(dir, t, stamp) !in b
  }

  ghost predicate NoCurrentAt(b: Bucket, stamp: nat) {
    forall d :: d in PartitionDirs(b.Keys) ==> CurrentKey(d, stamp) !in b
  }

  ghost predicate OnlyBackupsGone(b: Bucket, b': Bucket, stamp: nat) {
    forall k :: k in b && k !in b' ==> BackupKeyIn(k, PartitionDirs(b.Keys), stamp)
  }

  lemma OnlyBackupsGo(b: Bucket, b': Bucket, stamp: nat)
    requires SnapshotDeleted(b, b', stamp)
    ensures NoCurrentAt(b, stamp) ==> OnlyBackupsGone(b, b', stamp)
  {
  }

  /** The loop of the delete task: every partition is tried, and the outcomes are counted. */
  method DeletePartitions(bucket: CloudBucket, dirs: seq<string>, ts: string, ghost stamp: nat)
    returns (deleted: nat, processed: nat, errors: nat)
    requires ts == Decimal(stamp) && Dirs(dirs) == PartitionDirs(bucket.objects.Keys)
    requires forall d :: d in Dirs(dirs) ==> Tidy(bucket.objects, d)
    modifies bucket
    ensures SnapshotDeleted(old(bucket.objects), bucket.objects, stamp)
    ensures processed + errors == |dirs|
    ensures errors == 0 <==> bucket.failures == old(bucket.failures)
    ensures errors == 0 ==> deleted == |old(bucket.objects).Keys| - |bucket.objects.Keys|
    ensures errors == 0 ==> forall d :: d in Dirs(dirs) ==> NoStamped(bucket.objects, d, stamp)
  {
    ghost var start := bucket.objects;
    deleted, processed, errors := 0, 0, 0;
    for i := 0 to |dirs|
      invariant SnapshotDeleted(start, bucket.objects, stamp)
      invariant processed + errors == i
      invariant bucket.failures >= old(bucket.failures)
      invariant errors == 0 <==> bucket.failures == old(bucket.failures)
      invariant errors == 0 ==> deleted == |start.Keys| - |bucket.objects.Keys|
      invariant errors == 0 ==> CleanUpTo(bucket.objects, dirs, i, stamp)
    {
      assert dirs[i] in Dirs(dirs);
      ghost var before := bucket.objects;
      ghost var listing;
      var outcome;
      outcome, listing := ProcessPartitionDelete(bucket, dirs[i], ts);
      DeletedOne(start, before, bucket.objects, dirs[i], listing, stamp, outcome.Ok?);
      if errors == 0 && outcome.Ok? { CleanOneMore(before, bucket.objects, dirs, i, stamp); }
      match outcome
      case Ok(n) => deleted, processed := deleted + n, processed + 1;
      case Err(_) => errors := errors + 1;
    }
    if errors == 0 { AllClean(bucket.objects, dirs, stamp); }
  }

  /** The delete task. Complete or not, it removes nothing but backups with the stamp and current
      manifests whose term is the stamp, so nothing but backups where there is no such manifest;
      without errors it removes all of them and reports their number. The snapshot's record goes with
      `--force` or when no request failed. */
  method ExecuteDelete(bucket: CloudBucket, backupTs: string, force: bool, ghost stamp: nat)
    returns (r: Result<DeleteReport, TaskError>)
    requires Trim(backupTs) != "" ==> Trim(backupTs) == Decimal(stamp)
    requires forall d :: d in PartitionDirs(bucket.objects.Keys) ==> Tidy(bucket.objects, d)
    modifies bucket
    ensures SnapshotDeleted(old(bucket.objects), bucket.objects, stamp)
    ensures NoCurrentAt(old(bucket.objects), stamp) ==> OnlyBackupsGone(old(bucket.objects), bucket.objects, stamp)
    ensures Trim(backupTs) == "" ==> r == Ok(DeleteReport(1, false, 0, 0, 0))
    ensures r.Err? || Trim(backupTs) == "" ==> bucket.objects == old(bucket.objects)
    ensures r.Err? ==> bucket.failures == old(bucket.failures) + 1
    ensures r.Ok? && Trim(backupTs) != "" ==>
              && r.value.recordDeleted == (force || bucket.failures == old(bucket.failures))
              && r.value.status == (if force || bucket.failures == old(bucket.failures) then 0 else 1)
              && r.value.processed + r.value.errors == |PartitionDirs(old(bucket.objects.Keys))|
              && (r.value.errors == 0 <==> bucket.failures == old(bucket.failures))
              && (r.value.errors == 0 ==> r.value.deleted == |old(bucket.objects).Keys| - |bucket.objects.Keys|)
              && (r.value.errors == 0 ==>
                    forall d :: d in PartitionDirs(old(bucket.objects.Keys)) ==>
                      NoStamped(bucket.objects, d, stamp))
  {
    var ts := Trim(backupTs);
    if ts == "" { return Ok(DeleteReport(1, false, 0, 0, 0)); }
    var ok, dirs := ListTablePartitionDirs(bucket);
    if !ok { return Err(RequestFailed); }
    DistinctSize(dirs);
    assert Dirs(dirs) == set d | d in dirs;
    var deleted, processed, errors := DeletePartitions(bucket, dirs, ts, stamp);
    OnlyBackupsGo(old(bucket.objects), bucket.objects, stamp);
    var clean := force || errors == 0;
    r := Ok(DeleteReport(if clean then 0 else 1, clean, deleted, processed, errors));
  }

  ghost predicate CleanUpTo(b: Bucket, dirs: seq<string>, i: nat, stamp: nat) {
    i <= |dirs| && forall j :: 0 <= j < i ==> NoStamped(b, dirs[j], stamp)
  }

  lemma CleanOneMore(before: Bucket, after: Bucket, dirs: seq<string>, i: nat, stamp: nat)
    requires CleanUpTo(before, dirs, i, stamp) && after.Keys <= before.Keys && i < |dirs|
    requires NoStamped(after, dirs[i], stamp)
    ensures CleanUpTo(after, dirs, i + 1, stamp)
  {
    forall j | 0 <= j < i ensures NoStamped(after, dirs[j], stamp) { assert NoStamped(before, dirs[j], stamp); }
  }

  lemma AllClean(b: Bucket, dirs: seq<string>, stamp: nat)
    requires CleanUpTo(b, dirs, |dirs|, stamp)
    ensures forall d :: d in Dirs(dirs) ==> NoStamped(b, d, stamp)
  {
  }

  lemma DeletedOne(start: Bucket, before: Bucket, after: Bucket, dir: string, listing: seq<string>, stamp: nat,
                   complete: bool)
    requires SnapshotDeleted(start, before, stamp) && dir in PartitionDirs(start.Keys) && Tidy(start, dir)
    requires after != before || complete ==> IsListing(before, dir, listing)
    requires forall k :: k in after ==> k in before && after[k] == before[k]
    requires forall k :: k in before && k !in after ==> k in DeleteKeys(listing, StampPattern(Decimal(stamp)))
    requires complete ==> forall k :: k in DeleteKeys(listing, StampPattern(Decimal(stamp))) ==> k !in after
    ensures SnapshotDeleted(start, after, stamp)
    ensures complete ==> NoStamped(after, dir, stamp)
  {
    PartitionDirsAreFree(start.Keys);
    if after != before || complete {
      DeleteRemovesTheStamp(before, dir, listing, stamp);
      forall k | k in start && k !in after
        ensures BackupKeyIn(k, PartitionDirs(start.Keys), stamp) || CurrentKeyIn(k, PartitionDirs(start.Keys), stamp)
      {
        if k in before && k != CurrentKey(dir, stamp) { assert IsBackupAt(dir, stamp, k); }
      }
    }
  }
}
