/** Whole restore and delete runs over all partitions: order, interruption, repetition, and the
    interplay of several snapshots. */
module CloudRuns {
  import opened Wrappers
  import opened Text
  import opened ManifestKeys
  import opened CloudRestore

  /** The two buckets hold the same manifests of one partition. */
  ghost predicate Agree(b: Bucket, b': Bucket, dir: string) {
    forall k :: ManifestPrefix(dir) <= k ==> Get(b, k) == Get(b', k)
  }

  /** The keys that are manifests of no partition in `dirs` are the same in both buckets. */
  ghost predicate SameElsewhere(b: Bucket, b': Bucket, dirs: set<string>) {
    forall k :: (forall d :: d in dirs ==> !(ManifestPrefix(d) <= k)) ==> Get(b, k) == Get(b', k)
  }

  lemma ZonesAreDisjoint(d: string, d': string, k: string)
    requires FreeOf(d, {'/'}) && FreeOf(d', {'/'}) && ManifestPrefix(d) <= k && ManifestPrefix(d') <= k
    ensures d == d'
  {
    var rest, rest' := k[|d| + 1..], k[|d'| + 1..];
    assert k == d + "/" + rest by {
      assert k[..|ManifestPrefix(d)|] == ManifestPrefix(d);
      assert k[|d|] == '/';
      assert k[..|d|] == d;
    }
    assert k == d' + "/" + rest' by {
      assert k[..|ManifestPrefix(d')|] == ManifestPrefix(d');
      assert k[|d'|] == '/';
      assert k[..|d'|] == d';
    }
    FirstSegmentOf(d, rest);
    FirstSegmentOf(d', rest');
  }

  lemma AgreeKeys(b: Bucket, b': Bucket, dir: string)
    requires Agree(b, b', dir)
    ensures forall t: nat :: CurrentKey(dir, t) in b <==> CurrentKey(dir, t) in b'
    ensures forall t: nat, s: nat :: BackupKey(dir, t, s) in b <==> BackupKey(dir, t, s) in b'
    ensures forall k :: ManifestPrefix(dir) <= k ==> (k in b <==> k in b')
  {
    forall t: nat ensures CurrentKey(dir, t) in b <==> CurrentKey(dir, t) in b' {
      CurrentIsManifest(dir, t);
      assert Get(b, CurrentKey(dir, t)) == Get(b', CurrentKey(dir, t));
    }
    forall t: nat, s: nat ensures BackupKey(dir, t, s) in b <==> BackupKey(dir, t, s) in b' {
      BackupIsManifest(dir, t, s);
      assert Get(b, BackupKey(dir, t, s)) == Get(b', BackupKey(dir, t, s));
    }
    forall k | ManifestPrefix(dir) <= k ensures k in b <==> k in b' { assert Get(b, k) == Get(b', k); }
  }

  lemma AgreeRestorable(b: Bucket, b': Bucket, dir: string, stamp: nat)
    requires Agree(b, b', dir) && Restorable(b, dir, stamp)
    ensures Restorable(b', dir, stamp)
  {
    AgreeKeys(b, b', dir);
  }

  /** The first backup depends on which backups there are. */
  lemma SameBackups(b: Bucket, b': Bucket, dir: string, stamp: nat)
    requires FreeOf(dir, {'/'}) && forall t: nat :: BackupKey(dir, t, stamp) in b <==> BackupKey(dir, t, stamp) in b'
    ensures BackupTerm(b, dir, stamp) == BackupTerm(b', dir, stamp)
  {
    BackupTermFacts(b, dir, stamp);
    BackupTermFacts(b', dir, stamp);
    if BackupTerm(b, dir, stamp).Some? { BackupTermIs(b', dir, stamp, BackupTerm(b, dir, stamp).value); }
  }

  lemma AgreeViews(b: Bucket, b': Bucket, dir: string, stamp: nat)
    requires Agree(b, b', dir) && Restorable(b, dir, stamp)
    ensures BackupTerm(b, dir, stamp) == BackupTerm(b', dir, stamp)
    ensures Highest(b, dir) == Highest(b', dir) && Visible(b, dir) == Visible(b', dir)
  {
    AgreeKeys(b, b', dir);
    AgreeRestorable(b, b', dir, stamp);
    SameBackups(b, b', dir, stamp);
    HighestFacts(b, dir);
    HighestFacts(b', dir);
    if Highest(b, dir).Some? {
      var m := Highest(b, dir).value;
      HighestIs(b', dir, m);
      CurrentIsManifest(dir, m);
    }
  }

  /** What `RestoreDir` leaves at every manifest of its partition, and everywhere else. */
  lemma RestoreDirKeys(b: Bucket, dir: string, stamp: nat)
    requires Restorable(b, dir, stamp)
    ensures var b' := RestoreDir(b, dir, stamp);
            && (forall k :: !IsCurrentOf(dir, k) ==> Get(b', k) == Get(b, k))
            && (BackupTerm(b, dir, stamp).None? ==> forall k :: IsCurrentOf(dir, k) ==> k !in b')
            && (BackupTerm(b, dir, stamp).Some? ==>
                  var t := BackupTerm(b, dir, stamp).value;
                  && BackupKey(dir, t, stamp) in b && t <= U64_MAX
                  && Dest(b, dir, t) <= U64_MAX
                  && b' == b[CurrentKey(dir, Dest(b, dir, t)) := b[BackupKey(dir, t, stamp)]])
  {
    BackupTermFacts(b, dir, stamp);
    HighestFacts(b, dir);
    TidyTerms(b, dir);
    if BackupTerm(b, dir, stamp).Some? {
      CurrentIsManifest(dir, Dest(b, dir, BackupTerm(b, dir, stamp).value));
    }
  }

  lemma RestoreDirElsewhere(b: Bucket, dir: string, stamp: nat, other: string)
    requires Restorable(b, dir, stamp) && FreeOf(other, {'/'}) && other != dir
    ensures Agree(b, RestoreDir(b, dir, stamp), other)
  {
    RestoreDirKeys(b, dir, stamp);
    forall k | ManifestPrefix(other) <= k ensures Get(b, k) == Get(RestoreDir(b, dir, stamp), k) {
      CurrentHasPrefix(dir, k);
      if IsCurrentOf(dir, k) { ZonesAreDisjoint(dir, other, k); }
    }
  }

  lemma AgreeRestored(b: Bucket, b': Bucket, dir: string, stamp: nat)
    requires Agree(b, b', dir) && Restorable(b, dir, stamp)
    ensures Agree(RestoreDir(b, dir, stamp), RestoreDir(b', dir, stamp), dir)
  {
    AgreeRestorable(b, b', dir, stamp);
    AgreeViews(b, b', dir, stamp);
    RestoreDirKeys(b, dir, stamp);
    RestoreDirKeys(b', dir, stamp);
    var r, r' := RestoreDir(b, dir, stamp), RestoreDir(b', dir, stamp);
    if BackupTerm(b, dir, stamp).Some? {
      var backup := BackupKey(dir, BackupTerm(b, dir, stamp).value, stamp);
      BackupIsManifest(dir, BackupTerm(b, dir, stamp).value, stamp);
      assert Get(b, backup) == Get(b', backup);
    }
    forall k | ManifestPrefix(dir) <= k ensures Get(r, k) == Get(r', k) {
      assert Get(b, k) == Get(b', k);
      if !IsCurrentOf(dir, k) { assert Get(r, k) == Get(b, k) && Get(r', k) == Get(b', k); }
    }
  }

  /* ---------- one partition, one step ---------- */

  /** A copy or delete that some restore of this partition asks for. */
  ghost predicate GoalOp(b: Bucket, dir: string, stamp: nat, op: Op) {
    match (op, BackupTerm(b, dir, stamp))
    case (Copy(src, dst), Some(t)) => src == BackupKey(dir, t, stamp) && dst == CurrentKey(dir, Dest(b, dir, t))
    case (Delete(k), None) => IsCurrentOf(dir, k)
    case _ => false
  }

  /** Every request of a plan is one. */
  lemma PlannedOpsAreGoals(b: Bucket, dir: string, listing: seq<string>, stamp: nat, i: nat)
    requires Restorable(b, dir, stamp) && FindsFirst(b, dir, listing, stamp)
    requires RestorePlan(listing, dir, Decimal(stamp)).Some?
    requires i < |RestorePlan(listing, dir, Decimal(stamp)).value.ops|
    ensures GoalOp(b, dir, stamp, RestorePlan(listing, dir, Decimal(stamp)).value.ops[i])
  {
    BackupTermFacts(b, dir, stamp);
    match BackupTerm(b, dir, stamp)
    case Some(t) =>
      FoundBackup(b, dir, listing, stamp, t);
      CopyPlan(b, dir, listing, stamp, t);
      ClearDestination(b, dir, listing, stamp);
    case None =>
      FoundNothing(b, dir, listing, stamp);
      DeletePlan(b, dir, listing, stamp);
      assert CurrentNames(listing)[i] in CurrentNames(listing);
  }

  /** `b'` is `b` with part of the restore of `dir` done. */
  ghost predicate Progress(b: Bucket, b': Bucket, dir: string, stamp: nat) {
    && (forall k :: !IsCurrentOf(dir, k) ==> Get(b', k) == Get(b, k))
    && (if BackupTerm(b, dir, stamp).Some?
        then b' == b || b' == RestoreDir(b, dir, stamp)
        else forall k :: k in b' ==> k in b && b'[k] == b[k])
  }

  lemma GoalOpProgress(b: Bucket, dir: string, stamp: nat, op: Op)
    requires Restorable(b, dir, stamp) && GoalOp(b, dir, stamp, op)
    ensures Progress(b, ApplyOp(b, op), dir, stamp)
  {
    RestoreDirKeys(b, dir, stamp);
  }

  lemma WholeDirProgress(b: Bucket, dir: string, stamp: nat)
    requires Restorable(b, dir, stamp)
    ensures Progress(b, RestoreDir(b, dir, stamp), dir, stamp)
  {
    RestoreDirKeys(b, dir, stamp);
  }

  /** The backups stay, and the copy's destination stays the same. */
  lemma ProgressViews(b: Bucket, b': Bucket, dir: string, stamp: nat)
    requires Restorable(b, dir, stamp) && Progress(b, b', dir, stamp)
    ensures forall t: nat, s: nat :: BackupKey(dir, t, s) in b <==> BackupKey(dir, t, s) in b'
    ensures BackupTerm(b', dir, stamp) == BackupTerm(b, dir, stamp)
    ensures BackupTerm(b, dir, stamp).Some? ==>
              var t := BackupTerm(b, dir, stamp).value;
              && Dest(b', dir, t) == Dest(b, dir, t)
              && Get(b', BackupKey(dir, t, stamp)) == Get(b, BackupKey(dir, t, stamp))
  {
    forall t: nat, s: nat
      ensures BackupKey(dir, t, s) in b <==> BackupKey(dir, t, s) in b'
      ensures Get(b', BackupKey(dir, t, s)) == Get(b, BackupKey(dir, t, s))
    {
      BackupIsNotCurrentOf(dir, t, s);
      assert Get(b', BackupKey(dir, t, s)) == Get(b, BackupKey(dir, t, s));
    }
    SameBackups(b, b', dir, stamp);
    if BackupTerm(b, dir, stamp).Some? && b' != b { CopyKeepsDest(b, dir, stamp); }
  }

  lemma BackupIsNotCurrentOf(dir: string, t: nat, s: nat)
    ensures !IsCurrentOf(dir, BackupKey(dir, t, s))
  {
    forall u: nat ensures CurrentKey(dir, u) != BackupKey(dir, t, s) { BackupIsNotCurrent(dir, t, s, dir, u); }
  }

  lemma CopyKeepsDest(b: Bucket, dir: string, stamp: nat)
    requires Restorable(b, dir, stamp) && BackupTerm(b, dir, stamp).Some?
    ensures var t := BackupTerm(b, dir, stamp).value;
            Highest(RestoreDir(b, dir, stamp), dir) == Some(Dest(b, dir, t))
  {
    var t := BackupTerm(b, dir, stamp).value;
    RestoreDirKeys(b, dir, stamp);
    HighestFacts(b, dir);
    var b' := RestoreDir(b, dir, stamp);
    CurrentsAfterCopy(b, b', dir, Dest(b, dir, t), b[BackupKey(dir, t, stamp)]);
    HighestIs(b', dir, Dest(b, dir, t));
  }

  /** A restored partition shows the backup's content, or nothing if there was no backup. */
  lemma RestoredIsVisible(b: Bucket, dir: string, stamp: nat)
    requires Restorable(b, dir, stamp)
    ensures Visible(RestoreDir(b, dir, stamp), dir)
         == match BackupTerm(b, dir, stamp) { case Some(t) => Get(b, BackupKey(dir, t, stamp)) case None => None }
  {
    RestoreDirKeys(b, dir, stamp);
    if BackupTerm(b, dir, stamp).Some? {
      CopyKeepsDest(b, dir, stamp);
    } else {
      var b' := RestoreDir(b, dir, stamp);
      forall m: nat ensures !IsHighest(b', dir, m) {
        if CurrentKey(dir, m) in b' {
          TidyTerms(b, dir);
          CurrentIsManifest(dir, m);
        }
      }
    }
  }

  lemma ProgressKeepsRestorable(b: Bucket, b': Bucket, dir: string, stamp: nat, later: nat)
    requires Restorable(b, dir, stamp) && Progress(b, b', dir, stamp) && Restorable(b, dir, later)
    ensures Restorable(b', dir, later)
  {
    ProgressViews(b, b', dir, stamp);
    RestoreDirKeys(b, dir, stamp);
    HighestFacts(b, dir);
    forall k | k in b' && ManifestPrefix(dir) <= k ensures IsCurrentOf(dir, k) || IsBackupOf(dir, k) {
      if !IsCurrentOf(dir, k) { assert Get(b', k) == Get(b, k); }
    }
    forall u: nat | CurrentKey(dir, u) in b' ensures u < later {
      if BackupTerm(b, dir, stamp).Some? && b' != b {
        var t := BackupTerm(b, dir, stamp).value;
        CurrentsAfterCopy(b, b', dir, Dest(b, dir, t), b[BackupKey(dir, t, stamp)]);
      }
    }
  }

  /** Partial work on a partition leaves the result of restoring it the same. */
  lemma ProgressKeepsResult(b: Bucket, b': Bucket, dir: string, stamp: nat)
    requires Restorable(b, dir, stamp) && Progress(b, b', dir, stamp)
    ensures RestoreDir(b', dir, stamp) == RestoreDir(b, dir, stamp)
  {
    ProgressKeepsRestorable(b, b', dir, stamp, stamp);
    ProgressViews(b, b', dir, stamp);
    RestoreDirKeys(b, dir, stamp);
    RestoreDirKeys(b', dir, stamp);
    var r, r' := RestoreDir(b, dir, stamp), RestoreDir(b', dir, stamp);
    if BackupTerm(b, dir, stamp).None? {
      forall k ensures Get(r, k) == Get(r', k) {
        if !IsCurrentOf(dir, k) { assert Get(r, k) == Get(b, k) == Get(b', k) == Get(r', k); }
      }
      SameGets(r, r');
    }
  }

  lemma SameGets(b: Bucket, b': Bucket)
    requires forall k :: Get(b, k) == Get(b', k)
    ensures b == b'
  {
    forall k ensures k in b <==> k in b' { assert Get(b, k) == Get(b', k); }
    forall k | k in b ensures b[k] == b'[k] { assert Get(b, k) == Get(b', k); }
  }

  lemma ProgressElsewhere(b: Bucket, b': Bucket, dir: string, stamp: nat, other: string)
    requires Progress(b, b', dir, stamp) && FreeOf(dir, {'/'}) && FreeOf(other, {'/'}) && other != dir
    ensures Agree(b, b', other)
  {
    forall k | ManifestPrefix(other) <= k ensures Get(b, k) == Get(b', k) {
      CurrentHasPrefix(dir, k);
      if IsCurrentOf(dir, k) { ZonesAreDisjoint(dir, other, k); }
    }
  }

  /** A request planned before other work on the partition is still the right one after it, so
      restores of the same snapshot may even interleave. */
  lemma GoalsPersist(b: Bucket, b': Bucket, dir: string, stamp: nat, op: Op)
    requires Restorable(b, dir, stamp) && Progress(b, b', dir, stamp) && GoalOp(b, dir, stamp, op)
    ensures GoalOp(b', dir, stamp, op)
  {
    ProgressViews(b, b', dir, stamp);
  }

  /* ---------- all partitions ---------- */

  ghost function RestoreAll(b: Bucket, order: seq<string>, stamp: nat): Bucket
    decreases |order|
  {
    if order == [] then b else RestoreAll(RestoreDir(b, order[0], stamp), order[1..], stamp)
  }

  ghost predicate AllRestorable(b: Bucket, dirs: set<string>, stamp: nat) {
    forall d :: d in dirs ==> Restorable(b, d, stamp)
  }

  /** `b'` leads to the same restored manifests as `b` in all of `dirs`, and is the same elsewhere. */
  ghost predicate SameGoal(b: Bucket, b': Bucket, dirs: set<string>, stamp: nat) {
    && AllRestorable(b', dirs, stamp)
    && (forall d :: d in dirs ==> Agree(RestoreDir(b, d, stamp), RestoreDir(b', d, stamp), d))
    && SameElsewhere(b, b', dirs)
  }

  lemma SameGoalStarts(b: Bucket, dirs: set<string>, stamp: nat)
    requires AllRestorable(b, dirs, stamp)
    ensures SameGoal(b, b, dirs, stamp)
  {
  }

  lemma SameGoalStep(b: Bucket, b1: Bucket, b2: Bucket, dirs: set<string>, stamp: nat, dir: string)
    requires SameGoal(b, b1, dirs, stamp) && dir in dirs && Progress(b1, b2, dir, stamp)
    ensures SameGoal(b, b2, dirs, stamp)
  {
    forall d | d in dirs
      ensures Restorable(b2, d, stamp) && Agree(RestoreDir(b, d, stamp), RestoreDir(b2, d, stamp), d)
    {
      if d == dir {
        ProgressKeepsRestorable(b1, b2, dir, stamp, stamp);
        ProgressKeepsResult(b1, b2, dir, stamp);
      } else {
        ProgressElsewhere(b1, b2, dir, stamp, d);
        AgreeRestorable(b1, b2, d, stamp);
        AgreeRestored(b1, b2, d, stamp);
        AgreeTrans(RestoreDir(b, d, stamp), RestoreDir(b1, d, stamp), RestoreDir(b2, d, stamp), d);
      }
    }
    forall k | forall d :: d in dirs ==> !(ManifestPrefix(d) <= k) ensures Get(b, k) == Get(b2, k) {
      CurrentHasPrefix(dir, k);
    }
  }

  lemma AgreeTrans(a: Bucket, b: Bucket, c: Bucket, d: string)
    requires Agree(a, b, d) && Agree(b, c, d)
    ensures Agree(a, c, d)
  {
  }

  ghost function Dirs(order: seq<string>): set<string> { set d | d in order }

  /** Restoring all partitions gives every one its restored manifests and changes nothing else,
      whatever the order. */
  lemma {:induction false} RestoreAllAgrees(b: Bucket, order: seq<string>, stamp: nat)
    requires Distinct(order) && AllRestorable(b, Dirs(order), stamp)
    ensures forall d :: d in order ==> Agree(RestoreAll(b, order, stamp), RestoreDir(b, d, stamp), d)
    ensures SameElsewhere(b, RestoreAll(b, order, stamp), Dirs(order))
    decreases |order|
  {
    if order != [] {
      var first, rest := order[0], order[1..];
      var b1 := RestoreDir(b, first, stamp);
      assert first in Dirs(order) && order == [first] + rest;
      assert forall i :: 0 <= i < |rest| ==> rest[i] == order[i + 1] != first;
      assert forall d :: d in rest ==> d in Dirs(order) && d != first;
      forall d | d in rest
        ensures Agree(b, b1, d) && Restorable(b1, d, stamp)
        ensures Agree(RestoreDir(b1, d, stamp), RestoreDir(b, d, stamp), d)
      {
        RestoreDirElsewhere(b, first, stamp, d);
        AgreeRestorable(b, b1, d, stamp);
        AgreeRestored(b, b1, d, stamp);
      }
      RestoreAllAgrees(b1, rest, stamp);
      var last := RestoreAll(b1, rest, stamp);
      forall d | d in order ensures Agree(last, RestoreDir(b, d, stamp), d) {
        if d == first {
          OutsideZone(b1, last, rest, first);
        } else {
          AgreeTrans(last, RestoreDir(b1, d, stamp), RestoreDir(b, d, stamp), d);
        }
      }
      RestoreDirKeys(b, first, stamp);
      forall k | forall d :: d in Dirs(order) ==> !(ManifestPrefix(d) <= k) ensures Get(b, k) == Get(last, k) {
        CurrentHasPrefix(first, k);
      }
    }
  }

  lemma OutsideZone(b1: Bucket, last: Bucket, rest: seq<string>, first: string)
    requires SameElsewhere(b1, last, Dirs(rest)) && first !in rest
    requires FreeOf(first, {'/'}) && forall d :: d in rest ==> FreeOf(d, {'/'})
    ensures Agree(last, b1, first)
  {
    forall k | ManifestPrefix(first) <= k ensures Get(last, k) == Get(b1, k) {
      forall d | d in Dirs(rest) ensures !(ManifestPrefix(d) <= k) {
        if ManifestPrefix(d) <= k { ZonesAreDisjoint(first, d, k); }
      }
    }
  }

  /** `order` enumerates the partitions that the listing of the bucket reports. */
  ghost predicate Enumerates(order: seq<string>, b: Bucket) {
    Distinct(order) && Dirs(order) == PartitionDirs(b.Keys)
  }

  /** A partition that is no longer listed has no manifests left. */
  lemma UnlistedIsEmpty(b: Bucket, b': Bucket, d: string)
    requires d in PartitionDirs(b.Keys) && d !in PartitionDirs(b'.Keys)
    ensures forall k :: ManifestPrefix(d) <= k ==> k !in b'
  {
    PartitionDirsAreFree(b.Keys);
    var key :| key in b.Keys && IsPartitionName(FirstSegment(key)) && FirstSegment(key) == d;
    forall k | ManifestPrefix(d) <= k ensures k !in b' {
      if k in b' {
        assert k == ManifestPrefix(d) + k[|ManifestPrefix(d)|..];
        ManifestIsListed(b'.Keys, d, k[|ManifestPrefix(d)|..]);
      }
    }
  }

  lemma EmptyStaysEmpty(b: Bucket, d: string, stamp: nat)
    requires Restorable(b, d, stamp) && forall k :: ManifestPrefix(d) <= k ==> k !in b
    ensures Agree(b, RestoreDir(b, d, stamp), d)
  {
    RestoreDirKeys(b, d, stamp);
    if BackupTerm(b, d, stamp).Some? { BackupIsManifest(d, BackupTerm(b, d, stamp).value, stamp); }
  }

  /** A listed partition is restored; an unlisted one has nothing to restore. */
  lemma RestoredZone(b: Bucket, b': Bucket, order': seq<string>, stamp: nat, d: string)
    requires Enumerates(order', b') && d in PartitionDirs(b.Keys) && Restorable(b', d, stamp)
    requires AllRestorable(b', Dirs(order'), stamp)
    ensures Agree(RestoreAll(b', order', stamp), RestoreDir(b', d, stamp), d)
  {
    RestoreAllAgrees(b', order', stamp);
    if d !in order' {
      assert d !in Dirs(order');
      UnlistedIsEmpty(b, b', d);
      EmptyStaysEmpty(b', d, stamp);
      assert forall e :: e in order' ==> e in Dirs(order');
      OutsideZone(b', RestoreAll(b', order', stamp), order', d);
      AgreeTrans(RestoreAll(b', order', stamp), b', RestoreDir(b', d, stamp), d);
    }
  }

  lemma SameInZones(b: Bucket, b': Bucket, order: seq<string>, order': seq<string>, stamp: nat, d: string, k: string)
    requires Enumerates(order, b) && AllRestorable(b, Dirs(order), stamp)
    requires SameGoal(b, b', Dirs(order), stamp)
    requires Enumerates(order', b') && Dirs(order') <= Dirs(order)
    requires d in Dirs(order) && ManifestPrefix(d) <= k
    ensures Get(RestoreAll(b', order', stamp), k) == Get(RestoreAll(b, order, stamp), k)
  {
    RestoreAllAgrees(b, order, stamp);
    RestoredZone(b, b', order', stamp, d);
    assert Get(RestoreAll(b', order', stamp), k) == Get(RestoreDir(b', d, stamp), k) == Get(RestoreDir(b, d, stamp), k);
  }

  lemma SameOutsideZones(b: Bucket, b': Bucket, order: seq<string>, order': seq<string>, stamp: nat, k: string)
    requires Enumerates(order, b) && AllRestorable(b, Dirs(order), stamp)
    requires SameGoal(b, b', Dirs(order), stamp)
    requires Enumerates(order', b') && Dirs(order') <= Dirs(order)
    requires forall d :: d in Dirs(order) ==> !(ManifestPrefix(d) <= k)
    ensures Get(RestoreAll(b', order', stamp), k) == Get(RestoreAll(b, order, stamp), k)
  {
    RestoreAllAgrees(b, order, stamp);
    RestoreAllAgrees(b', order', stamp);
    assert Get(RestoreAll(b', order', stamp), k) == Get(b', k) == Get(b, k) == Get(RestoreAll(b, order, stamp), k);
  }

  /** Restoring from any bucket with the same goal, in any order, over the partitions then listed. */
  lemma SameGoalSameResult(b: Bucket, b': Bucket, order: seq<string>, order': seq<string>, stamp: nat)
    requires Enumerates(order, b) && AllRestorable(b, Dirs(order), stamp)
    requires SameGoal(b, b', Dirs(order), stamp)
    requires Enumerates(order', b') && Dirs(order') <= Dirs(order)
    ensures RestoreAll(b', order', stamp) == RestoreAll(b, order, stamp)
  {
    var r, r' := RestoreAll(b, order, stamp), RestoreAll(b', order', stamp);
    forall k ensures Get(r, k) == Get(r', k) {
      if d :| d in Dirs(order) && ManifestPrefix(d) <= k {
        SameInZones(b, b', order, order', stamp, d, k);
      } else {
        SameOutsideZones(b, b', order, order', stamp, k);
      }
    }
    SameGets(r, r');
  }
}
