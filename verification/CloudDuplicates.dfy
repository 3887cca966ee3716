/** Restores where a partition may hold several backups of one timestamp, under different terms: which
    one is copied is up to the listing, and everything else is as it must be. */
module CloudDuplicates {
  import opened Wrappers
  import opened Text
  import opened ManifestKeys
  import opened CloudRestore
  import opened CloudRuns

  /** `b'` shows one of the backups that the partition has in `b`, or nothing if it has none. */
  ghost predicate ShowsABackup(b: Bucket, b': Bucket, dir: string, stamp: nat) {
    if exists t: nat :: BackupKey(dir, t, stamp) in b
    then exists t: nat :: BackupKey(dir, t, stamp) in b && Visible(b', dir) == Get(b, BackupKey(dir, t, stamp))
    else forall t: nat :: CurrentKey(dir, t) !in b'
  }

  ghost predicate OnlyCurrentsChange(b: Bucket, b': Bucket, dir: string) {
    forall k :: !IsCurrentOf(dir, k) ==> Get(b', k) == Get(b, k)
  }

  lemma CopyShows(b: Bucket, dir: string, listing: seq<string>, stamp: nat, t: nat)
    requires Restorable(b, dir, stamp) && IsListing(b, dir, listing)
    requires FirstMatch(listing, StampPattern(Decimal(stamp))) == Some(BackupKey(dir, t, stamp))
    ensures var plan := RestorePlan(listing, dir, Decimal(stamp));
            && plan.Some? && plan.value.outcome == Restored
            && BackupKey(dir, t, stamp) in b
            && Visible(ApplyOps(b, plan.value.ops), dir) == Get(b, BackupKey(dir, t, stamp))
            && OnlyCurrentsChange(b, ApplyOps(b, plan.value.ops), dir)
  {
    FirstMatchFacts(listing, StampPattern(Decimal(stamp)));
    CopyPlan(b, dir, listing, stamp, t);
    ClearDestination(b, dir, listing, stamp);
    HighestFacts(b, dir);
    TidyTerms(b, dir);
    var d := Dest(b, dir, t);
    var copy := Copy(BackupKey(dir, t, stamp), CurrentKey(dir, d));
    var b' := ApplyOp(b, copy);
    assert ApplyOps(b, [copy]) == b';
    CurrentsAfterCopy(b, b', dir, d, b[BackupKey(dir, t, stamp)]);
    HighestIs(b', dir, d);
    CurrentIsManifest(dir, d);
  }

  lemma DeletesShow(b: Bucket, dir: string, listing: seq<string>, stamp: nat)
    requires Restorable(b, dir, stamp) && IsListing(b, dir, listing)
    requires FirstMatch(listing, StampPattern(Decimal(stamp))).None?
    ensures var plan := RestorePlan(listing, dir, Decimal(stamp));
            && plan.Some? && plan.value.outcome != Restored
            && (plan.value.outcome == Skipped <==> forall t: nat :: CurrentKey(dir, t) !in b)
            && (forall t: nat :: CurrentKey(dir, t) !in ApplyOps(b, plan.value.ops))
            && OnlyCurrentsChange(b, ApplyOps(b, plan.value.ops), dir)
  {
    DeletePlan(b, dir, listing, stamp);
    var current := CurrentNames(listing);
    ApplyDeletes(b, current);
    TidyTerms(b, dir);
    if current != [] { assert current[0] in current; }
    forall t: nat | CurrentKey(dir, t) in b ensures current != [] { CurrentIsManifest(dir, t); }
    forall t: nat ensures CurrentKey(dir, t) !in ApplyOps(b, DeleteOps(current)) {
      if CurrentKey(dir, t) in b { CurrentIsManifest(dir, t); }
    }
  }

  /** One partition: the plan never fails, shows a backup of the stamp if there is one, and changes
      current manifests only. */
  lemma PlanShowsABackup(b: Bucket, dir: string, listing: seq<string>, stamp: nat)
    requires Restorable(b, dir, stamp) && IsListing(b, dir, listing)
    ensures var plan := RestorePlan(listing, dir, Decimal(stamp));
            && plan.Some?
            && ShowsABackup(b, ApplyOps(b, plan.value.ops), dir, stamp)
            && OnlyCurrentsChange(b, ApplyOps(b, plan.value.ops), dir)
            && (plan.value.outcome == Restored <==> exists t: nat :: BackupKey(dir, t, stamp) in b)
            && (plan.value.outcome == Skipped <==>
                  forall t: nat :: BackupKey(dir, t, stamp) !in b && CurrentKey(dir, t) !in b)
  {
    MatchCases(b, dir, listing, stamp);
    if FirstMatch(listing, StampPattern(Decimal(stamp))).None? {
      DeletesShow(b, dir, listing, stamp);
    } else {
      assert CurrentKey(dir, stamp) !in b;
      var t: nat :| FirstMatch(listing, StampPattern(Decimal(stamp))) == Some(BackupKey(dir, t, stamp));
      CopyShows(b, dir, listing, stamp, t);
    }
  }

  /* ---------- when the listing decides ---------- */

  /** The bucket after the whole plan of one listing. */
  ghost function Planned(b: Bucket, dir: string, listing: seq<string>, stamp: nat): Bucket {
    match RestorePlan(listing, dir, Decimal(stamp))
    case Some(plan) => ApplyOps(b, plan.ops)
    case None => b
  }

  ghost predicate ListingIsIrrelevant(b: Bucket, dir: string, stamp: nat) {
    forall a, a' :: IsListing(b, dir, a) && IsListing(b, dir, a') ==>
      Planned(b, dir, a, stamp) == Planned(b, dir, a', stamp)
  }

  /** The backups of the stamp have the same content and, where there is no current manifest to replace,
      the same term. */
  ghost predicate BackupsAreAlike(b: Bucket, dir: string, stamp: nat) {
    forall t: nat, u: nat :: BackupKey(dir, t, stamp) in b && BackupKey(dir, u, stamp) in b ==>
      b[BackupKey(dir, t, stamp)] == b[BackupKey(dir, u, stamp)] && (t == u || Highest(b, dir).Some?)
  }

  lemma PlannedCopy(b: Bucket, dir: string, listing: seq<string>, stamp: nat, t: nat)
    requires Restorable(b, dir, stamp) && IsListing(b, dir, listing)
    requires FirstMatch(listing, StampPattern(Decimal(stamp))) == Some(BackupKey(dir, t, stamp))
    ensures BackupKey(dir, t, stamp) in b
    ensures Planned(b, dir, listing, stamp) == b[CurrentKey(dir, Dest(b, dir, t)) := b[BackupKey(dir, t, stamp)]]
  {
    FirstMatchFacts(listing, StampPattern(Decimal(stamp)));
    CopyPlan(b, dir, listing, stamp, t);
    ClearDestination(b, dir, listing, stamp);
    var copy := Copy(BackupKey(dir, t, stamp), CurrentKey(dir, Dest(b, dir, t)));
    assert ApplyOps(b, [copy]) == ApplyOp(b, copy);
  }

  lemma PlannedDeletes(b: Bucket, dir: string, listing: seq<string>, stamp: nat)
    requires Restorable(b, dir, stamp) && IsListing(b, dir, listing)
    requires FirstMatch(listing, StampPattern(Decimal(stamp))).None?
    ensures Planned(b, dir, listing, stamp) == map k | k in b && !IsCurrentOf(dir, k) :: b[k]
  {
    DeletePlan(b, dir, listing, stamp);
    ApplyDeletes(b, CurrentNames(listing));
  }

  lemma AlikeIsEnough(b: Bucket, dir: string, stamp: nat, a: seq<string>, a': seq<string>)
    requires Restorable(b, dir, stamp) && BackupsAreAlike(b, dir, stamp)
    requires IsListing(b, dir, a) && IsListing(b, dir, a')
    ensures Planned(b, dir, a, stamp) == Planned(b, dir, a', stamp)
  {
    var pattern := StampPattern(Decimal(stamp));
    MatchCases(b, dir, a, stamp);
    MatchCases(b, dir, a', stamp);
    assert CurrentKey(dir, stamp) !in b;
    if FirstMatch(a, pattern).None? {
      PlannedDeletes(b, dir, a, stamp);
      PlannedDeletes(b, dir, a', stamp);
    } else {
      var t: nat :| FirstMatch(a, pattern) == Some(BackupKey(dir, t, stamp));
      var u: nat :| FirstMatch(a', pattern) == Some(BackupKey(dir, u, stamp));
      PlannedCopy(b, dir, a, stamp, t);
      PlannedCopy(b, dir, a', stamp, u);
    }
  }

  lemma {:induction false} SomeOrder(keys: set<string>) returns (list: seq<string>)
    ensures forall k :: k in list <==> k in keys
    decreases |keys|
  {
    list := [];
    if keys != {} {
      var k :| k in keys;
      var rest := SomeOrder(keys - {k});
      list := [k] + rest;
    }
  }

  /** Any backup of the stamp may be listed first. */
  lemma ListedFirst(b: Bucket, dir: string, stamp: nat, t: nat) returns (listing: seq<string>)
    requires BackupKey(dir, t, stamp) in b
    ensures IsListing(b, dir, listing)
    ensures FirstMatch(listing, StampPattern(Decimal(stamp))) == Some(BackupKey(dir, t, stamp))
  {
    var rest := SomeOrder(set k | k in b && ManifestPrefix(dir) <= k);
    BackupIsManifest(dir, t, stamp);
    EndsInStamp(dir, t, stamp, stamp);
    listing := [BackupKey(dir, t, stamp)] + rest;
  }

  lemma SameCopies(b: Bucket, dir: string, t: nat, u: nat, x: Bytes, y: Bytes)
    requires FreeOf(dir, {'/'}) && Tidy(b, dir)
    requires b[CurrentKey(dir, Dest(b, dir, t)) := x] == b[CurrentKey(dir, Dest(b, dir, u)) := y]
    ensures x == y && (t == u || Highest(b, dir).Some?)
  {
    var k, k' := CurrentKey(dir, Dest(b, dir, t)), CurrentKey(dir, Dest(b, dir, u));
    HighestFacts(b, dir);
    assert k in b[k := x] && k in b[k' := y];
    assert b[k := x][k] == x && b[k' := y][k'] == y;
    if Highest(b, dir).None? { CurrentKeyInjective(dir, t, dir, u); }
  }

  lemma AlikeIsNeeded(b: Bucket, dir: string, stamp: nat, t: nat, u: nat)
    requires Restorable(b, dir, stamp) && ListingIsIrrelevant(b, dir, stamp)
    requires BackupKey(dir, t, stamp) in b && BackupKey(dir, u, stamp) in b
    ensures b[BackupKey(dir, t, stamp)] == b[BackupKey(dir, u, stamp)] && (t == u || Highest(b, dir).Some?)
  {
    var a := ListedFirst(b, dir, stamp, t);
    var a' := ListedFirst(b, dir, stamp, u);
    PlannedCopy(b, dir, a, stamp, t);
    PlannedCopy(b, dir, a', stamp, u);
    assert Planned(b, dir, a, stamp) == Planned(b, dir, a', stamp);
    SameCopies(b, dir, t, u, b[BackupKey(dir, t, stamp)], b[BackupKey(dir, u, stamp)]);
  }

  /** Where the terms lie below the stamp, the order of a listing is irrelevant to the restore of a
      partition exactly when its backups of the stamp are alike. */
  lemma ListingIsIrrelevantIff(b: Bucket, dir: string, stamp: nat)
    requires Restorable(b, dir, stamp)
    ensures ListingIsIrrelevant(b, dir, stamp) <==> BackupsAreAlike(b, dir, stamp)
  {
    if BackupsAreAlike(b, dir, stamp) {
      forall a, a' | IsListing(b, dir, a) && IsListing(b, dir, a')
        ensures Planned(b, dir, a, stamp) == Planned(b, dir, a', stamp)
      {
        AlikeIsEnough(b, dir, stamp, a, a');
      }
    }
    if ListingIsIrrelevant(b, dir, stamp) {
      forall t: nat, u: nat | BackupKey(dir, t, stamp) in b && BackupKey(dir, u, stamp) in b
        ensures b[BackupKey(dir, t, stamp)] == b[BackupKey(dir, u, stamp)] && (t == u || Highest(b, dir).Some?)
      {
        AlikeIsNeeded(b, dir, stamp, t, u);
      }
    }
  }

  /* ---------- whole runs ---------- */

  /** A partition, the listing of it that a restore gets, and how many of the planned requests it makes
      before it ends or is interrupted. */
  datatype Visit = Visit(dir: string, listing: seq<string>, requests: nat)

  function Requests(v: Visit, stamp: nat): seq<Op> {
    match RestorePlan(v.listing, v.dir, Decimal(stamp))
    case Some(plan) => plan.ops[..Min(v.requests, |plan.ops|)]
    case None => []
  }

  predicate IsComplete(v: Visit, stamp: nat) {
    var plan := RestorePlan(v.listing, v.dir, Decimal(stamp));
    plan.Some? && v.requests >= |plan.value.ops|
  }

  /** The bucket after some visits, in this order. */
  ghost function After(b: Bucket, visits: seq<Visit>, stamp: nat): Bucket {
    if visits == [] then b
    else ApplyOps(After(b, visits[..|visits| - 1], stamp), Requests(visits[|visits| - 1], stamp))
  }

  /** Every visit is to one of `dirs` and lists what the bucket then holds, in any order. */
  ghost predicate Happens(b: Bucket, visits: seq<Visit>, dirs: set<string>, stamp: nat) {
    visits == [] ||
    (var front, last := visits[..|visits| - 1], visits[|visits| - 1];
     Happens(b, front, dirs, stamp) && last.dir in dirs && IsListing(After(b, front, stamp), last.dir, last.listing))
  }

  /** The partitions whose last visit was a complete one. */
  function Settled(visits: seq<Visit>, stamp: nat): set<string> {
    if visits == [] then {}
    else
      var front, last := Settled(visits[..|visits| - 1], stamp), visits[|visits| - 1];
      if IsComplete(last, stamp) then front + {last.dir} else front - {last.dir}
  }

  /** Nothing but current manifests of `dirs` differs. */
  ghost predicate OthersUntouched(b: Bucket, b': Bucket, dirs: set<string>) {
    forall k :: (forall d :: d in dirs ==> !IsCurrentOf(d, k)) ==> Get(b', k) == Get(b, k)
  }

  ghost predicate AllShown(b: Bucket, b': Bucket, dirs: set<string>, stamp: nat) {
    forall d :: d in dirs ==> ShowsABackup(b, b', d, stamp)
  }

  lemma BackupsUntouched(b: Bucket, b': Bucket, dirs: set<string>, d: string, stamp: nat)
    requires OthersUntouched(b, b', dirs)
    ensures forall t: nat :: Get(b', BackupKey(d, t, stamp)) == Get(b, BackupKey(d, t, stamp))
    ensures forall t: nat :: BackupKey(d, t, stamp) in b <==> BackupKey(d, t, stamp) in b'
  {
    forall t: nat
      ensures Get(b', BackupKey(d, t, stamp)) == Get(b, BackupKey(d, t, stamp))
      ensures BackupKey(d, t, stamp) in b <==> BackupKey(d, t, stamp) in b'
    {
      forall e | e in dirs ensures !IsCurrentOf(e, BackupKey(d, t, stamp)) {
        forall u: nat ensures CurrentKey(e, u) != BackupKey(d, t, stamp) { BackupIsNotCurrent(d, t, stamp, e, u); }
      }
      assert Get(b', BackupKey(d, t, stamp)) == Get(b, BackupKey(d, t, stamp));
    }
  }

  /** Showing a backup of the bucket at hand is showing one of the first bucket. */
  lemma ShownSinceStart(start: Bucket, b: Bucket, b': Bucket, dirs: set<string>, d: string, stamp: nat)
    requires OthersUntouched(start, b, dirs) && ShowsABackup(b, b', d, stamp)
    ensures ShowsABackup(start, b', d, stamp)
  {
    BackupsUntouched(start, b, dirs, d, stamp);
  }

  /** A partition shows the same when another one is visited. */
  lemma ShownStays(start: Bucket, b: Bucket, b': Bucket, d: string, stamp: nat)
    requires ShowsABackup(start, b, d, stamp) && Agree(b, b', d) && Restorable(b, d, stamp)
    ensures ShowsABackup(start, b', d, stamp)
  {
    AgreeViews(b, b', d, stamp);
    AgreeKeys(b, b', d);
  }

  lemma CurrentsElsewhere(b: Bucket, b': Bucket, dir: string, other: string)
    requires OnlyCurrentsChange(b, b', dir) && FreeOf(dir, {'/'}) && FreeOf(other, {'/'}) && other != dir
    ensures Agree(b, b', other)
  {
    forall k | ManifestPrefix(other) <= k ensures Get(b, k) == Get(b', k) {
      CurrentHasPrefix(dir, k);
      if IsCurrentOf(dir, k) { ZonesAreDisjoint(dir, other, k); }
    }
  }

  lemma TidyAfter(b: Bucket, b': Bucket, dir: string)
    requires Tidy(b, dir) && OnlyCurrentsChange(b, b', dir)
    ensures Tidy(b', dir) && forall t: nat, s: nat :: BackupKey(dir, t, s) in b' <==> BackupKey(dir, t, s) in b
  {
    forall k | k in b' && ManifestPrefix(dir) <= k ensures IsCurrentOf(dir, k) || IsBackupOf(dir, k) {
      if !IsCurrentOf(dir, k) { assert Get(b', k) == Get(b, k); }
    }
    forall t: nat, s: nat ensures BackupKey(dir, t, s) in b' <==> BackupKey(dir, t, s) in b {
      BackupIsNotCurrentOf(dir, t, s);
      assert Get(b', BackupKey(dir, t, s)) == Get(b, BackupKey(dir, t, s));
    }
  }

  lemma CopyKeepsTerms(b: Bucket, dir: string, listing: seq<string>, stamp: nat, t: nat)
    requires Restorable(b, dir, stamp) && IsListing(b, dir, listing)
    requires FirstMatch(listing, StampPattern(Decimal(stamp))) == Some(BackupKey(dir, t, stamp))
    ensures var plan := RestorePlan(listing, dir, Decimal(stamp));
            plan.Some? && |plan.value.ops| == 1
            && forall u: nat :: CurrentKey(dir, u) in ApplyOps(b, plan.value.ops) ==> u < stamp
  {
    FirstMatchFacts(listing, StampPattern(Decimal(stamp)));
    CopyPlan(b, dir, listing, stamp, t);
    ClearDestination(b, dir, listing, stamp);
    HighestFacts(b, dir);
    var d := Dest(b, dir, t);
    var copy := Copy(BackupKey(dir, t, stamp), CurrentKey(dir, d));
    assert ApplyOps(b, [copy]) == ApplyOp(b, copy);
    CurrentsAfterCopy(b, ApplyOp(b, copy), dir, d, b[BackupKey(dir, t, stamp)]);
  }

  lemma SomeDeletes(b: Bucket, v: Visit, stamp: nat)
    requires Restorable(b, v.dir, stamp) && IsListing(b, v.dir, v.listing)
    requires FirstMatch(v.listing, StampPattern(Decimal(stamp))).None?
    ensures ApplyOps(b, Requests(v, stamp)).Keys <= b.Keys
    ensures OnlyCurrentsChange(b, ApplyOps(b, Requests(v, stamp)), v.dir)
  {
    DeletePlan(b, v.dir, v.listing, stamp);
    var current := CurrentNames(v.listing);
    var n := Min(v.requests, |current|);
    assert Requests(v, stamp) == DeleteOps(current[..n]);
    ApplyDeletes(b, current[..n]);
    assert forall k :: k in current[..n] ==> k in current;
  }

  /** A visit, complete or not, changes current manifests only, and the partition can be restored
      after it as before. */
  lemma VisitKeepsRestorable(b: Bucket, v: Visit, stamp: nat)
    requires Restorable(b, v.dir, stamp) && IsListing(b, v.dir, v.listing)
    ensures OnlyCurrentsChange(b, ApplyOps(b, Requests(v, stamp)), v.dir)
    ensures Restorable(ApplyOps(b, Requests(v, stamp)), v.dir, stamp)
  {
    var b' := ApplyOps(b, Requests(v, stamp));
    MatchCases(b, v.dir, v.listing, stamp);
    PlanShowsABackup(b, v.dir, v.listing, stamp);
    var ops := RestorePlan(v.listing, v.dir, Decimal(stamp)).value.ops;
    if FirstMatch(v.listing, StampPattern(Decimal(stamp))).None? {
      SomeDeletes(b, v, stamp);
    } else {
      assert CurrentKey(v.dir, stamp) !in b;
      var t: nat :| FirstMatch(v.listing, StampPattern(Decimal(stamp))) == Some(BackupKey(v.dir, t, stamp));
      CopyKeepsTerms(b, v.dir, v.listing, stamp, t);
      assert ops[..1] == ops && ops[..0] == [];
    }
    TidyAfter(b, b', v.dir);
  }

  lemma UntouchedOn(start: Bucket, b: Bucket, b': Bucket, dirs: set<string>, dir: string)
    requires OthersUntouched(start, b, dirs) && dir in dirs && OnlyCurrentsChange(b, b', dir)
    ensures OthersUntouched(start, b', dirs)
  {
  }

  /** One more visit: its partition is shown if it was complete, and the others are as before. */
  lemma VisitShows(start: Bucket, b: Bucket, v: Visit, dirs: set<string>, done: set<string>, stamp: nat)
    requires OthersUntouched(start, b, dirs) && AllRestorable(b, dirs, stamp) && AllShown(start, b, done, stamp)
    requires done <= dirs
    requires v.dir in dirs && IsListing(b, v.dir, v.listing)
    ensures var b' := ApplyOps(b, Requests(v, stamp));
            && OthersUntouched(start, b', dirs) && AllRestorable(b', dirs, stamp)
            && AllShown(start, b', if IsComplete(v, stamp) then done + {v.dir} else done - {v.dir}, stamp)
  {
    var b' := ApplyOps(b, Requests(v, stamp));
    VisitKeepsRestorable(b, v, stamp);
    UntouchedOn(start, b, b', dirs, v.dir);
    forall d | d in dirs && d != v.dir
      ensures Restorable(b', d, stamp) && (d in done ==> ShowsABackup(start, b', d, stamp))
    {
      CurrentsElsewhere(b, b', v.dir, d);
      AgreeRestorable(b, b', d, stamp);
      if d in done { ShownStays(start, b, b', d, stamp); }
    }
    if IsComplete(v, stamp) { CompleteVisitShows(start, b, v, dirs, stamp); }
  }

  lemma CompleteVisitShows(start: Bucket, b: Bucket, v: Visit, dirs: set<string>, stamp: nat)
    requires OthersUntouched(start, b, dirs) && Restorable(b, v.dir, stamp) && IsListing(b, v.dir, v.listing)
    requires IsComplete(v, stamp)
    ensures ShowsABackup(start, ApplyOps(b, Requests(v, stamp)), v.dir, stamp)
  {
    PlanShowsABackup(b, v.dir, v.listing, stamp);
    assert Requests(v, stamp) == RestorePlan(v.listing, v.dir, Decimal(stamp)).value.ops;
    ShownSinceStart(start, b, ApplyOps(b, Requests(v, stamp)), dirs, v.dir, stamp);
  }

  /** Any run, with any listings, interruptions, repetitions and any number of backups of the stamp:
      a partition whose last visit was complete shows one of its backups, or nothing where there is
      none; only current manifests change, and every partition can still be restored. */
  lemma {:induction false} RunShowsBackups(b: Bucket, visits: seq<Visit>, dirs: set<string>, stamp: nat)
    requires AllRestorable(b, dirs, stamp) && Happens(b, visits, dirs, stamp)
    ensures AllShown(b, After(b, visits, stamp), Settled(visits, stamp), stamp) && Settled(visits, stamp) <= dirs
    ensures OthersUntouched(b, After(b, visits, stamp), dirs) && AllRestorable(After(b, visits, stamp), dirs, stamp)
  {
    if visits != [] {
      var front, last := visits[..|visits| - 1], visits[|visits| - 1];
      RunShowsBackups(b, front, dirs, stamp);
      VisitShows(b, After(b, front, stamp), last, dirs, Settled(front, stamp), stamp);
    }
  }

  function VisitedDirs(visits: seq<Visit>): set<string> { set v | v in visits :: v.dir }

  lemma VisitedDirsPush(visits: seq<Visit>, v: Visit)
    ensures VisitedDirs(visits + [v]) == VisitedDirs(visits) + {v.dir}
  {
    var all := visits + [v];
    forall d | d in VisitedDirs(visits) + {v.dir} ensures d in VisitedDirs(all) {
      if d == v.dir { assert v in all; } else {
        var w :| w in visits && w.dir == d;
        assert w in all;
      }
    }
  }

  lemma {:induction false} CompleteVisitsSettle(visits: seq<Visit>, stamp: nat)
    requires forall v :: v in visits ==> IsComplete(v, stamp)
    ensures Settled(visits, stamp) == VisitedDirs(visits)
  {
    if visits != [] {
      var front, last := visits[..|visits| - 1], visits[|visits| - 1];
      assert visits == front + [last];
      CompleteVisitsSettle(front, stamp);
      VisitedDirsPush(front, last);
    }
  }

  lemma CurrentSegment(d: string, k: string)
    requires IsCurrentOf(d, k) && FreeOf(d, {'/'})
    ensures FirstSegment(k) == d
  {
    var t: nat :| t <= U64_MAX && CurrentKey(d, t) == k;
    DigitsAreFree(Decimal(t));
    KeyParts(d, Decimal(t));
  }

  lemma NewKeyIsInDirs(b: Bucket, b': Bucket, dirs: set<string>, k: string)
    requires OthersUntouched(b, b', dirs) && forall d :: d in dirs ==> FreeOf(d, {'/'})
    requires k in b' && k !in b
    ensures FirstSegment(k) in dirs
  {
    assert Get(b', k) != Get(b, k);
    var d :| d in dirs && IsCurrentOf(d, k);
    CurrentSegment(d, k);
  }

  /** New keys are manifests of partitions that were there. */
  lemma UntouchedDirs(b: Bucket, b': Bucket, dirs: set<string>)
    requires OthersUntouched(b, b', dirs) && PartitionDirs(b.Keys) <= dirs && forall d :: d in dirs ==> FreeOf(d, {'/'})
    ensures PartitionDirs(b'.Keys) <= dirs
  {
    forall k | k in b'.Keys && k !in b.Keys ensures FirstSegment(k) in dirs { NewKeyIsInDirs(b, b', dirs, k); }
  }

  /** An interrupted run, or several, followed by a complete one over the partitions then listed:
      every partition of the first bucket shows one of its backups, or nothing where there is none,
      and no other key has changed. */
  lemma InterruptedRunShowsBackups(b: Bucket, visits: seq<Visit>, again: seq<Visit>, stamp: nat)
    requires AllRestorable(b, PartitionDirs(b.Keys), stamp) && Happens(b, visits, PartitionDirs(b.Keys), stamp)
    requires var b' := After(b, visits, stamp);
             && Happens(b', again, PartitionDirs(b'.Keys), stamp)
             && (forall v :: v in again ==> IsComplete(v, stamp))
             && VisitedDirs(again) == PartitionDirs(b'.Keys)
    ensures var b'' := After(After(b, visits, stamp), again, stamp);
            AllShown(b, b'', PartitionDirs(b.Keys), stamp) && OthersUntouched(b, b'', PartitionDirs(b.Keys))
  {
    var dirs, b' := PartitionDirs(b.Keys), After(b, visits, stamp);
    var b'' := After(b', again, stamp);
    RunShowsBackups(b, visits, dirs, stamp);
    UntouchedDirs(b, b', dirs);
    RunShowsBackups(b', again, PartitionDirs(b'.Keys), stamp);
    CompleteVisitsSettle(again, stamp);
    forall d | d in dirs ensures ShowsABackup(b, b'', d, stamp) {
      if d !in PartitionDirs(b'.Keys) { UnlistedShowsNothing(b, b', b'', d, stamp); }
      ShownSinceStart(b, b', b'', dirs, d, stamp);
    }
  }

  /** A partition that is no longer listed has neither backups nor current manifests. */
  lemma UnlistedShowsNothing(b: Bucket, b': Bucket, b'': Bucket, d: string, stamp: nat)
    requires d in PartitionDirs(b.Keys) && d !in PartitionDirs(b'.Keys)
    requires OthersUntouched(b', b'', PartitionDirs(b'.Keys))
    ensures ShowsABackup(b', b'', d, stamp)
  {
    UnlistedIsEmpty(b, b', d);
    PartitionDirsAreFree(b.Keys);
    PartitionDirsAreFree(b'.Keys);
    forall t: nat ensures BackupKey(d, t, stamp) !in b' && CurrentKey(d, t) !in b'' {
      BackupIsManifest(d, t, stamp);
      CurrentIsManifest(d, t);
      forall e | e in PartitionDirs(b'.Keys) ensures !IsCurrentOf(e, CurrentKey(d, t)) {
        CurrentHasPrefix(e, CurrentKey(d, t));
        if IsCurrentOf(e, CurrentKey(d, t)) { ZonesAreDisjoint(d, e, CurrentKey(d, t)); }
      }
      assert Get(b'', CurrentKey(d, t)) == Get(b', CurrentKey(d, t));
    }
  }
}
