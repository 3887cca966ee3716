/** What complete, interrupted, repeated and successive restores and deletes guarantee. */
module CloudTheorems {
  import opened Wrappers
  import opened Text
  import opened ManifestKeys
  import opened CloudRestore
  import opened CloudRuns

  /** The backup's content for one partition, if it has one. */
  ghost function BackupContent(b: Bucket, dir: string, stamp: nat): Option<Bytes> {
    match BackupTerm(b, dir, stamp)
    case Some(t) => Get(b, BackupKey(dir, t, stamp))
    case None => None
  }

  /** A complete restore shows, in every partition, the backup's content, or nothing where there is
      no backup; every object that is not a current manifest, such as a backup of any timestamp, is
      unchanged. */
  lemma RestoreIsCorrect(b: Bucket, order: seq<string>, stamp: nat)
    requires Distinct(order) && AllRestorable(b, Dirs(order), stamp)
    ensures forall d :: d in order ==> Visible(RestoreAll(b, order, stamp), d) == BackupContent(b, d, stamp)
    ensures forall d, t: nat :: d in order && BackupTerm(b, d, stamp).None? ==>
              CurrentKey(d, t) !in RestoreAll(b, order, stamp)
    ensures forall k :: (forall d :: d in order ==> !IsCurrentOf(d, k)) ==>
              Get(RestoreAll(b, order, stamp), k) == Get(b, k)
  {
    RestoreAllAgrees(b, order, stamp);
    var r := RestoreAll(b, order, stamp);
    assert forall d :: d in order <==> d in Dirs(order);
    forall d | d in order
      ensures Visible(r, d) == BackupContent(b, d, stamp)
      ensures BackupTerm(b, d, stamp).None? ==> forall t: nat :: CurrentKey(d, t) !in r
    {
      RestoreDirStays(b, d, stamp);
      RestoredIsVisible(b, d, stamp);
      AgreeViews(RestoreDir(b, d, stamp), r, d, stamp);
      AgreeKeys(RestoreDir(b, d, stamp), r, d);
      NothingLeft(b, d, stamp);
    }
    forall k | forall d :: d in order ==> !IsCurrentOf(d, k) ensures Get(r, k) == Get(b, k) {
      if exists d :: d in order && ManifestPrefix(d) <= k {
        var d :| d in order && ManifestPrefix(d) <= k;
        RestoreDirKeys(b, d, stamp);
        assert Get(r, k) == Get(RestoreDir(b, d, stamp), k) == Get(b, k);
      }
    }
  }

  lemma RestoreDirStays(b: Bucket, d: string, stamp: nat)
    requires Restorable(b, d, stamp)
    ensures Restorable(RestoreDir(b, d, stamp), d, stamp)
  {
    WholeDirProgress(b, d, stamp);
    ProgressKeepsRestorable(b, RestoreDir(b, d, stamp), d, stamp, stamp);
  }

  lemma NothingLeft(b: Bucket, d: string, stamp: nat)
    requires Restorable(b, d, stamp)
    ensures BackupTerm(b, d, stamp).None? ==> forall t: nat :: CurrentKey(d, t) !in RestoreDir(b, d, stamp)
  {
    TidyTerms(b, d);
    RestoreDirKeys(b, d, stamp);
    forall t: nat | BackupTerm(b, d, stamp).None? ensures CurrentKey(d, t) !in RestoreDir(b, d, stamp) {
      CurrentIsManifest(d, t);
    }
  }

  /* ---------- interruption ---------- */

  /** `b'` is reached from `b` by some requests that restores of `stamp` make: any number of them,
      for any partitions, in any order. */
  ghost predicate Reaches(b: Bucket, run: seq<(string, Op)>, dirs: set<string>, stamp: nat, b': Bucket)
    decreases |run|
  {
    if run == [] then b == b'
    else
      && run[0].0 in dirs && GoalOp(b, run[0].0, stamp, run[0].1)
      && Reaches(ApplyOp(b, run[0].1), run[1..], dirs, stamp, b')
  }

  lemma {:induction false} RunKeepsGoal(b: Bucket, b1: Bucket, run: seq<(string, Op)>, dirs: set<string>, stamp: nat,
                                        b': Bucket)
    requires SameGoal(b, b1, dirs, stamp) && Reaches(b1, run, dirs, stamp, b')
    requires PartitionDirs(b1.Keys) <= dirs
    ensures SameGoal(b, b', dirs, stamp) && PartitionDirs(b'.Keys) <= dirs
    decreases |run|
  {
    if run != [] {
      var (d, op) := run[0];
      var b2 := ApplyOp(b1, op);
      GoalOpProgress(b1, d, stamp, op);
      SameGoalStep(b, b1, b2, dirs, stamp, d);
      OpKeepsDirs(b1, op, d, stamp, dirs);
      RunKeepsGoal(b, b2, run[1..], dirs, stamp, b');
    }
  }

  lemma OpKeepsDirs(b: Bucket, op: Op, d: string, stamp: nat, dirs: set<string>)
    requires Restorable(b, d, stamp) && GoalOp(b, d, stamp, op) && d in dirs && PartitionDirs(b.Keys) <= dirs
    ensures PartitionDirs(ApplyOp(b, op).Keys) <= dirs
  {
    if op.Copy? {
      var name := Decimal(Dest(b, d, BackupTerm(b, d, stamp).value));
      DigitsAreFree(name);
      KeyParts(d, name);
      assert FirstSegment(op.dst) == d;
      assert ApplyOp(b, op).Keys <= b.Keys + {op.dst};
    } else {
      assert ApplyOp(b, op).Keys <= b.Keys;
    }
  }

  /** Restore is restartable: stop after any single copy or delete, list the partitions again, and
      restore in any order. The bucket is the one a single clean restore leaves. */
  lemma RestartConverges(b: Bucket, run: seq<(string, Op)>, b': Bucket, stamp: nat, order: seq<string>,
                         order': seq<string>)
    requires Enumerates(order, b) && AllRestorable(b, PartitionDirs(b.Keys), stamp)
    requires Reaches(b, run, PartitionDirs(b.Keys), stamp, b') && Enumerates(order', b')
    ensures RestoreAll(b', order', stamp) == RestoreAll(b, order, stamp)
  {
    SameGoalStarts(b, PartitionDirs(b.Keys), stamp);
    RunKeepsGoal(b, b, run, PartitionDirs(b.Keys), stamp, b');
    SameGoalSameResult(b, b', order, order', stamp);
  }

  /** The order of the partitions does not matter. */
  lemma PartitionOrderIsIrrelevant(b: Bucket, stamp: nat, order: seq<string>, order': seq<string>)
    requires Enumerates(order, b) && Enumerates(order', b) && AllRestorable(b, PartitionDirs(b.Keys), stamp)
    ensures RestoreAll(b, order', stamp) == RestoreAll(b, order, stamp)
  {
    RestartConverges(b, [], b, stamp, order, order');
  }

  lemma {:induction false} WholeRunKeepsGoal(b: Bucket, b1: Bucket, order: seq<string>, dirs: set<string>, stamp: nat)
    requires SameGoal(b, b1, dirs, stamp) && Dirs(order) <= dirs && PartitionDirs(b1.Keys) <= dirs
    ensures SameGoal(b, RestoreAll(b1, order, stamp), dirs, stamp)
    ensures PartitionDirs(RestoreAll(b1, order, stamp).Keys) <= dirs
    decreases |order|
  {
    if order != [] {
      var d := order[0];
      assert d in Dirs(order) && forall e :: e in order[1..] ==> e in Dirs(order);
      var b2 := RestoreDir(b1, d, stamp);
      WholeDirProgress(b1, d, stamp);
      SameGoalStep(b, b1, b2, dirs, stamp, d);
      DirKeepsDirs(b1, d, stamp, dirs);
      WholeRunKeepsGoal(b, b2, order[1..], dirs, stamp);
    }
  }

  lemma DirKeepsDirs(b: Bucket, d: string, stamp: nat, dirs: set<string>)
    requires Restorable(b, d, stamp) && d in dirs && PartitionDirs(b.Keys) <= dirs
    ensures PartitionDirs(RestoreDir(b, d, stamp).Keys) <= dirs
  {
    RestoreDirKeys(b, d, stamp);
    if BackupTerm(b, d, stamp).Some? {
      var name := Decimal(Dest(b, d, BackupTerm(b, d, stamp).value));
      DigitsAreFree(name);
      KeyParts(d, name);
      assert FirstSegment(CurrentKey(d, Dest(b, d, BackupTerm(b, d, stamp).value))) == d;
    } else {
      assert RestoreDir(b, d, stamp).Keys <= b.Keys;
    }
  }

  /** Restore is idempotent. */
  lemma RestoreTwiceIsRestoreOnce(b: Bucket, stamp: nat, order: seq<string>, order': seq<string>)
    requires Enumerates(order, b) && AllRestorable(b, PartitionDirs(b.Keys), stamp)
    requires Enumerates(order', RestoreAll(b, order, stamp))
    ensures RestoreAll(RestoreAll(b, order, stamp), order', stamp) == RestoreAll(b, order, stamp)
  {
    SameGoalStarts(b, PartitionDirs(b.Keys), stamp);
    WholeRunKeepsGoal(b, b, order, PartitionDirs(b.Keys), stamp);
    SameGoalSameResult(b, RestoreAll(b, order, stamp), order, order', stamp);
  }

  /* ---------- several snapshots ---------- */

  lemma ContentStays(b: Bucket, b': Bucket, d: string, stamp: nat)
    requires FreeOf(d, {'/'}) && forall t: nat :: Get(b', BackupKey(d, t, stamp)) == Get(b, BackupKey(d, t, stamp))
    ensures BackupContent(b', d, stamp) == BackupContent(b, d, stamp)
  {
    forall t: nat ensures BackupKey(d, t, stamp) in b <==> BackupKey(d, t, stamp) in b' {
      assert Get(b', BackupKey(d, t, stamp)) == Get(b, BackupKey(d, t, stamp));
    }
    SameBackups(b, b', d, stamp);
  }

  lemma RestoreAllKeepsRestorable(b: Bucket, order: seq<string>, stamp: nat, later: nat, d: string)
    requires Distinct(order) && AllRestorable(b, Dirs(order), stamp) && d in order && Restorable(b, d, later)
    ensures Restorable(RestoreAll(b, order, stamp), d, later)
  {
    assert d in Dirs(order);
    RestoreAllAgrees(b, order, stamp);
    WholeDirProgress(b, d, stamp);
    ProgressKeepsRestorable(b, RestoreDir(b, d, stamp), d, stamp, later);
    AgreeSymmetric(RestoreAll(b, order, stamp), RestoreDir(b, d, stamp), d);
    AgreeRestorable(RestoreDir(b, d, stamp), RestoreAll(b, order, stamp), d, later);
  }

  lemma AgreeSymmetric(a: Bucket, b: Bucket, d: string)
    requires Agree(a, b, d)
    ensures Agree(b, a, d)
  {
  }

  /** What a restore shows in any partition of the bucket it started from, listed or not. */
  lemma ShownAfterRestore(b0: Bucket, b: Bucket, order: seq<string>, stamp: nat, d: string)
    requires d in PartitionDirs(b0.Keys) && Restorable(b, d, stamp)
    requires Enumerates(order, b) && AllRestorable(b, Dirs(order), stamp)
    ensures Visible(RestoreAll(b, order, stamp), d) == BackupContent(b, d, stamp)
  {
    RestoredZone(b0, b, order, stamp, d);
    RestoreDirStays(b, d, stamp);
    RestoredIsVisible(b, d, stamp);
    AgreeSymmetric(RestoreAll(b, order, stamp), RestoreDir(b, d, stamp), d);
    AgreeViews(RestoreDir(b, d, stamp), RestoreAll(b, order, stamp), d, stamp);
  }

  /** The last restore wins: restoring one snapshot and then another shows in every partition what
      restoring the second alone shows. */
  lemma LastRestoreWins(b: Bucket, first: nat, second: nat, order: seq<string>, between: seq<string>, d: string)
    requires Enumerates(order, b) && d in order
    requires AllRestorable(b, Dirs(order), first) && AllRestorable(b, Dirs(order), second)
    requires Enumerates(between, RestoreAll(b, order, first))
    ensures Visible(RestoreAll(RestoreAll(b, order, first), between, second), d)
         == Visible(RestoreAll(b, order, second), d)
  {
    var b1 := RestoreAll(b, order, first);
    assert forall e :: e in order <==> e in Dirs(order);
    SameGoalStarts(b, Dirs(order), first);
    WholeRunKeepsGoal(b, b, order, Dirs(order), first);
    forall e | e in Dirs(order) ensures Restorable(b1, e, second) {
      RestoreAllKeepsRestorable(b, order, first, second, e);
    }
    ShownAfterRestore(b, b1, between, second, d);
    ShownAfterRestore(b, b, order, second, d);
    RestoreIsCorrect(b, order, first);
    forall t: nat ensures Get(b1, BackupKey(d, t, second)) == Get(b, BackupKey(d, t, second)) {
      forall e | e in order ensures !IsCurrentOf(e, BackupKey(d, t, second)) {
        forall u: nat ensures CurrentKey(e, u) != BackupKey(d, t, second) { BackupIsNotCurrent(d, t, second, e, u); }
      }
    }
    ContentStays(b, b1, d, second);
  }

  /* ---------- deleting a snapshot ---------- */

  function EndsIn(pattern: string): string -> bool { (key: string) => EndsWith(key, pattern) }

  /** The keys `process_partition_delete` deletes: those that end in the stamp. */
  function DeleteKeys(listing: seq<string>, pattern: string): seq<string> { Filter(EndsIn(pattern), listing) }

  /** A delete removes the partition's backups with the stamp, and besides them at most the current
      manifest whose term is the stamp; so it removes exactly the backups if and only if there is no
      such current manifest. */
  lemma DeleteRemovesTheStamp(b: Bucket, dir: string, listing: seq<string>, stamp: nat)
    requires Tidy(b, dir) && FreeOf(dir, {'/'}) && IsListing(b, dir, listing)
    ensures forall k :: k in DeleteKeys(listing, StampPattern(Decimal(stamp))) <==>
              k in b && (k == CurrentKey(dir, stamp) || exists t: nat :: BackupKey(dir, t, stamp) == k)
    ensures (forall k :: k in DeleteKeys(listing, StampPattern(Decimal(stamp))) ==>
               exists t: nat :: BackupKey(dir, t, stamp) == k)
       <==> CurrentKey(dir, stamp) !in b
  {
    FilterMembers(EndsIn(StampPattern(Decimal(stamp))), listing);
    forall k ensures k in DeleteKeys(listing, StampPattern(Decimal(stamp))) <==>
        k in b && (k == CurrentKey(dir, stamp) || exists t: nat :: BackupKey(dir, t, stamp) == k)
    {
      if k in listing { ListedKey(b, dir, listing, k, stamp); }
      if k == CurrentKey(dir, stamp) {
        CurrentIsManifest(dir, stamp);
        EndsInStamp(dir, stamp, 0, stamp);
      }
      forall t: nat | BackupKey(dir, t, stamp) == k
        ensures ManifestPrefix(dir) <= k && EndsWith(k, StampPattern(Decimal(stamp)))
      {
        BackupIsManifest(dir, t, stamp);
        EndsInStamp(dir, t, stamp, stamp);
      }
    }
    forall t: nat ensures BackupKey(dir, t, stamp) != CurrentKey(dir, stamp) {
      BackupIsNotCurrent(dir, t, stamp, dir, stamp);
    }
  }

  ghost predicate BackupKeyIn(k: string, dirs: set<string>, stamp: nat) {
    exists d :: d in dirs && IsBackupAt(d, stamp, k)
  }

  ghost predicate CurrentKeyIn(k: string, dirs: set<string>, stamp: nat) {
    exists d :: d in dirs && k == CurrentKey(d, stamp)
  }

  /** `b'` is `b` without some backups of the stamp and current manifests whose term is the stamp: what
      a delete leaves, complete or not. */
  ghost predicate SnapshotDeleted(b: Bucket, b': Bucket, stamp: nat) {
    && (forall k :: k in b' ==> k in b && b'[k] == b[k])
    && (forall k :: k in b && k !in b' ==>
          BackupKeyIn(k, PartitionDirs(b.Keys), stamp) || CurrentKeyIn(k, PartitionDirs(b.Keys), stamp))
  }

  lemma BackupIsKept(d: string, t: nat, other: nat, dirs: set<string>, stamp: nat)
    requires other != stamp && FreeOf(d, {'/'}) && forall e :: e in dirs ==> FreeOf(e, {'/'})
    ensures !BackupKeyIn(BackupKey(d, t, other), dirs, stamp) && !CurrentKeyIn(BackupKey(d, t, other), dirs, stamp)
  {
    forall e | e in dirs ensures BackupKey(d, t, other) != CurrentKey(e, stamp) {
      BackupIsNotCurrent(d, t, other, e, stamp);
    }
    forall e, u: nat | e in dirs ensures BackupKey(e, u, stamp) != BackupKey(d, t, other) {
      if BackupKey(e, u, stamp) == BackupKey(d, t, other) { BackupKeyInjective(e, u, stamp, d, t, other); }
    }
  }

  lemma CurrentIsKept(d: string, t: nat, dirs: set<string>, stamp: nat)
    requires t != stamp && FreeOf(d, {'/'}) && forall e :: e in dirs ==> FreeOf(e, {'/'})
    ensures !BackupKeyIn(CurrentKey(d, t), dirs, stamp) && !CurrentKeyIn(CurrentKey(d, t), dirs, stamp)
  {
    forall e | e in dirs ensures CurrentKey(e, stamp) != CurrentKey(d, t) {
      if CurrentKey(e, stamp) == CurrentKey(d, t) { CurrentKeyInjective(e, stamp, d, t); }
    }
    forall e, u: nat | e in dirs ensures BackupKey(e, u, stamp) != CurrentKey(d, t) {
      BackupIsNotCurrent(e, u, stamp, d, t);
    }
  }

  lemma OtherBackupsStay(b: Bucket, b': Bucket, stamp: nat, d: string, other: nat)
    requires SnapshotDeleted(b, b', stamp) && other != stamp && FreeOf(d, {'/'})
    ensures forall t: nat :: Get(b', BackupKey(d, t, other)) == Get(b, BackupKey(d, t, other))
  {
    PartitionDirsAreFree(b.Keys);
    forall t: nat ensures Get(b', BackupKey(d, t, other)) == Get(b, BackupKey(d, t, other)) {
      BackupIsKept(d, t, other, PartitionDirs(b.Keys), stamp);
    }
  }

  lemma OtherCurrentsStay(b: Bucket, b': Bucket, stamp: nat, d: string)
    requires SnapshotDeleted(b, b', stamp) && FreeOf(d, {'/'})
    ensures forall t: nat :: t != stamp ==> Get(b', CurrentKey(d, t)) == Get(b, CurrentKey(d, t))
  {
    PartitionDirsAreFree(b.Keys);
    forall t: nat | t != stamp ensures Get(b', CurrentKey(d, t)) == Get(b, CurrentKey(d, t)) {
      CurrentIsKept(d, t, PartitionDirs(b.Keys), stamp);
    }
  }

  /** What a database reads from a partition survives a delete, complete or not, unless the stamp is
      the term of the manifest it reads. */
  lemma DeleteKeepsVisible(b: Bucket, b': Bucket, stamp: nat, d: string)
    requires SnapshotDeleted(b, b', stamp) && FreeOf(d, {'/'}) && Tidy(b, d) && Highest(b, d) != Some(stamp)
    ensures Visible(b', d) == Visible(b, d)
  {
    OtherCurrentsStay(b, b', stamp, d);
    HighestFacts(b, d);
    assert b'.Keys <= b.Keys;
    if Highest(b, d).Some? {
      assert Get(b', CurrentKey(d, Highest(b, d).value)) == Get(b, CurrentKey(d, Highest(b, d).value));
      HighestIs(b', d, Highest(b, d).value);
    }
  }

  /** Deleting one snapshot leaves the others restorable: a restore at another timestamp shows the
      same content in every partition before and after the delete. */
  lemma DeleteKeepsOtherSnapshots(b: Bucket, b': Bucket, deleted: nat, stamp: nat, order: seq<string>,
                                  order': seq<string>, d: string)
    requires deleted != stamp && SnapshotDeleted(b, b', deleted)
    requires Enumerates(order, b) && Enumerates(order', b') && d in order && AllRestorable(b, Dirs(order), stamp)
    ensures Visible(RestoreAll(b', order', stamp), d) == Visible(RestoreAll(b, order, stamp), d)
  {
    assert forall e :: e in order <==> e in Dirs(order);
    forall e | e in Dirs(order) ensures Restorable(b', e, stamp) {
      assert b'.Keys <= b.Keys;
    }
    assert PartitionDirs(b'.Keys) <= PartitionDirs(b.Keys);
    ShownAfterRestore(b, b', order', stamp, d);
    ShownAfterRestore(b, b, order, stamp, d);
    OtherBackupsStay(b, b', deleted, d, stamp);
    ContentStays(b, b', d, stamp);
  }

  /* ---------- where the hypothesis on the terms matters ---------- */

  /** A partition with one current manifest and one backup of a lower term. */
  function TwoManifests(dir: string, high: nat, kept: Bytes, low: nat, stamp: nat, saved: Bytes): Bucket {
    map[CurrentKey(dir, high) := kept, BackupKey(dir, low, stamp) := saved]
  }

  lemma TwoManifestsKeys(dir: string, high: nat, kept: Bytes, low: nat, stamp: nat, saved: Bytes)
    requires FreeOf(dir, {'/'}) && low < high <= U64_MAX
    ensures var b := TwoManifests(dir, high, kept, low, stamp, saved);
            && (forall t: nat :: CurrentKey(dir, t) in b <==> t == high)
            && (forall t: nat, s: nat :: BackupKey(dir, t, s) in b <==> t == low && s == stamp)
            && Tidy(b, dir) && OneBackup(b, dir, stamp)
            && b[CurrentKey(dir, high)] == kept && b[BackupKey(dir, low, stamp)] == saved
  {
    var b := TwoManifests(dir, high, kept, low, stamp, saved);
    BackupIsNotCurrent(dir, low, stamp, dir, high);
    forall t: nat | CurrentKey(dir, t) in b ensures t == high {
      BackupIsNotCurrent(dir, low, stamp, dir, t);
      CurrentKeyInjective(dir, t, dir, high);
    }
    forall t: nat, s: nat | BackupKey(dir, t, s) in b ensures t == low && s == stamp {
      BackupIsNotCurrent(dir, t, s, dir, high);
      BackupKeyInjective(dir, t, s, dir, low, stamp);
    }
  }

  /** If the digits of the highest term start with the stamp, the copy goes to the backup's lower
      term and the old manifest stays visible (terms 12 and 5 at timestamp 1, say). */
  lemma RestoreCanMissTheHighestTerm(dir: string, high: nat, kept: Bytes, low: nat, stamp: nat, saved: Bytes)
    requires FreeOf(dir, {'/'}) && low < high <= U64_MAX && stamp != high && Decimal(stamp) <= Decimal(high)
    ensures var b := TwoManifests(dir, high, kept, low, stamp, saved);
            var listing := [CurrentKey(dir, high), BackupKey(dir, low, stamp)];
            var copy := Copy(BackupKey(dir, low, stamp), CurrentKey(dir, low));
            && IsListing(b, dir, listing)
            && RestorePlan(listing, dir, Decimal(stamp)) == Some(Plan([copy], Restored))
            && Visible(ApplyOp(b, copy), dir) == Some(kept)
  {
    var b := TwoManifests(dir, high, kept, low, stamp, saved);
    var listing := [CurrentKey(dir, high), BackupKey(dir, low, stamp)];
    TwoManifestsKeys(dir, high, kept, low, stamp, saved);
    CurrentIsManifest(dir, high);
    BackupIsManifest(dir, low, stamp);
    AllShadowedPlan(b, dir, listing, stamp, low);
    MissedHighest(b, dir, high, low, saved);
  }

  lemma ShadowInstance()
    ensures Decimal(1) <= Decimal(12)
  {
    assert Decimal(1) == "1" && Decimal(12) == "12";
  }

  /** With a current manifest of term 12 and a backup of term 5 at timestamp 1, the restore copies the
      backup to term 5 and the manifest of term 12 is read as before. */
  lemma TermTwelveHidesTermFive(dir: string, kept: Bytes, saved: Bytes)
    requires FreeOf(dir, {'/'})
    ensures var b, listing := TwoManifests(dir, 12, kept, 5, 1, saved), [CurrentKey(dir, 12), BackupKey(dir, 5, 1)];
            var copy := Copy(BackupKey(dir, 5, 1), CurrentKey(dir, 5));
            && IsListing(b, dir, listing)
            && RestorePlan(listing, dir, Decimal(1)) == Some(Plan([copy], Restored))
            && Visible(ApplyOp(b, copy), dir) == Some(kept)
  {
    ShadowInstance();
    RestoreCanMissTheHighestTerm(dir, 12, kept, 5, 1, saved);
  }

  lemma AllShadowedPlan(b: Bucket, dir: string, listing: seq<string>, stamp: nat, t: nat)
    requires Tidy(b, dir) && FreeOf(dir, {'/'}) && IsListing(b, dir, listing)
    requires OneBackup(b, dir, stamp) && BackupKey(dir, t, stamp) in b && CurrentKey(dir, stamp) !in b
    requires AllShadowed(b, dir, stamp)
    ensures RestorePlan(listing, dir, Decimal(stamp))
         == Some(Plan([Copy(BackupKey(dir, t, stamp), CurrentKey(dir, t))], Restored))
  {
    OnlyBackup(b, dir, stamp, t);
    FoundBackup(b, dir, listing, stamp, t);
    CopyPlan(b, dir, listing, stamp, t);
    HighestTermMeans(b, dir, listing, stamp);
  }

  lemma MissedHighest(b: Bucket, dir: string, high: nat, low: nat, saved: Bytes)
    requires FreeOf(dir, {'/'}) && IsHighest(b, dir, high) && low < high
    ensures Visible(b[CurrentKey(dir, low) := saved], dir) == Some(b[CurrentKey(dir, high)])
  {
    var b' := b[CurrentKey(dir, low) := saved];
    CurrentsAfterCopy(b, b', dir, low, saved);
    HighestIs(b', dir, high);
    if CurrentKey(dir, low) == CurrentKey(dir, high) { CurrentKeyInjective(dir, low, dir, high); }
  }
}
