/** Restoring a snapshot in the object store: which copies and deletes one partition gets, and what
    any complete, interrupted or repeated restore leaves in the bucket. */
module CloudRestore {
  import opened Wrappers
  import opened Text
  import opened Sorting
  import opened ManifestKeys

  type Bytes = seq<bv8>
  type Bucket = map<string, Bytes>

  /** One request that changes the bucket. */
  datatype Op = Copy(src: string, dst: string) | Delete(key: string)

  datatype Outcome = Restored | Skipped | Deleted

  datatype Plan = Plan(ops: seq<Op>, outcome: Outcome)

  function ApplyOp(b: Bucket, op: Op): Bucket {
    match op
    case Copy(src, dst) => if src in b then b[dst := b[src]] else b
    case Delete(key) => b - {key}
  }

  function ApplyOps(b: Bucket, ops: seq<Op>): Bucket
    decreases |ops|
  {
    if ops == [] then b else ApplyOps(ApplyOp(b, ops[0]), ops[1..])
  }

  /* ---------- what the source computes from a listing ---------- */

  /** The first listed key that ends in the pattern. */
  function FirstMatch(listing: seq<string>, pattern: string): Option<string> {
    if listing == [] then None
    else if EndsWith(listing[0], pattern) then Some(listing[0])
    else FirstMatch(listing[1..], pattern)
  }

  function MaxOption(a: Option<nat>, b: Option<nat>): Option<nat> {
    match (a, b)
    case (Some(x), Some(y)) => Some(if x >= y then x else y)
    case (Some(_), None) => a
    case (None, _) => b
  }

  /** The highest term among the keys that do not contain the pattern and parse as current. */
  function HighestTerm(listing: seq<string>, pattern: string): Option<nat> {
    if listing == [] then None
    else MaxOption(if Contains(listing[0], pattern) then None else ExtractTermFromCurrent(listing[0]),
                   HighestTerm(listing[1..], pattern))
  }

  function CurrentNames(listing: seq<string>): seq<string> { Filter(IsCurrentName, listing) }

  function DeleteOps(keys: seq<string>): seq<Op> {
    seq(|keys|, i requires 0 <= i < |keys| => Delete(keys[i]))
  }

  /** `process_partition_restore`: the requests for one partition; `None` is the error return. */
  function RestorePlan(listing: seq<string>, dir: string, stamp: string): Option<Plan> {
    match FirstMatch(listing, StampPattern(stamp))
    case Some(backup) =>
      (match ExtractTermFromBackup(backup, stamp)
       case None => None
       case Some(term) =>
         var maxTerm := HighestTerm(listing, StampPattern(stamp)).GetOr(term);
         Some(Plan([Copy(backup, CurrentKey(dir, maxTerm))], Restored)))
    case None =>
      var current := CurrentNames(listing);
      Some(Plan(DeleteOps(current), if current != [] then Deleted else Skipped))
  }

  /** A listing enumerates the keys with the manifest prefix, in any order. */
  ghost predicate IsListing(b: Bucket, dir: string, listing: seq<string>) {
    forall k :: k in listing <==> k in b && ManifestPrefix(dir) <= k
  }

  /* ---------- a partition's manifests ---------- */

  ghost predicate IsCurrentOf(dir: string, k: string) {
    exists t: nat :: t <= U64_MAX && CurrentKey(dir, t) == k
  }

  ghost predicate IsBackupOf(dir: string, k: string) {
    exists t: nat, s: nat :: t <= U64_MAX && BackupKey(dir, t, s) == k
  }

  /** Every manifest of the partition has one of the two documented names. */
  ghost predicate Tidy(b: Bucket, dir: string) {
    forall k :: k in b && ManifestPrefix(dir) <= k ==> IsCurrentOf(dir, k) || IsBackupOf(dir, k)
  }

  ghost predicate OneBackup(b: Bucket, dir: string, stamp: nat) {
    forall t: nat, t': nat :: BackupKey(dir, t, stamp) in b && BackupKey(dir, t', stamp) in b ==> t == t'
  }

  /** The terms in use are numerically below the backup timestamp. */
  ghost predicate TermsBelow(b: Bucket, dir: string, stamp: nat) {
    && (forall t: nat :: CurrentKey(dir, t) in b ==> t < stamp)
    && (forall t: nat, s: nat :: BackupKey(dir, t, s) in b ==> t < stamp)
  }

  /** What a restore at `stamp` relies on in one partition: its manifests and its name are such that the
      string tests tell them apart. */
  ghost predicate Restorable(b: Bucket, dir: string, stamp: nat) {
    && FreeOf(dir, {'/'})
    && !Contains(dir, StampPattern(Decimal(stamp)))
    && Tidy(b, dir)
    && TermsBelow(b, dir, stamp)
  }

  /** The backup of the stamp that comes first in the order of keys. */
  ghost predicate IsFirstBackup(b: Bucket, dir: string, stamp: nat, t: nat) {
    && BackupKey(dir, t, stamp) in b
    && forall u: nat :: BackupKey(dir, u, stamp) in b ==> StringLe(BackupKey(dir, t, stamp), BackupKey(dir, u, stamp))
  }

  ghost function BackupTerm(b: Bucket, dir: string, stamp: nat): Option<nat> {
    if t: nat :| IsFirstBackup(b, dir, stamp, t) then Some(t) else None
  }

  lemma BackupTermIs(b: Bucket, dir: string, stamp: nat, t: nat)
    requires FreeOf(dir, {'/'}) && IsFirstBackup(b, dir, stamp, t)
    ensures BackupTerm(b, dir, stamp) == Some(t)
  {
    forall u: nat | IsFirstBackup(b, dir, stamp, u) ensures u == t {
      StringLeAntisymmetric(BackupKey(dir, t, stamp), BackupKey(dir, u, stamp));
      BackupKeyInjective(dir, t, stamp, dir, u, stamp);
    }
  }

  ghost predicate IsBackupAt(dir: string, stamp: nat, k: string) { exists u: nat :: BackupKey(dir, u, stamp) == k }

  lemma FirstBackupExists(b: Bucket, dir: string, stamp: nat, t: nat)
    requires BackupKey(dir, t, stamp) in b
    ensures BackupTerm(b, dir, stamp).Some?
  {
    var keys := set k | k in b && IsBackupAt(dir, stamp, k);
    assert IsBackupAt(dir, stamp, BackupKey(dir, t, stamp)) && BackupKey(dir, t, stamp) in keys;
    var least := LeastKey(keys);
    var u: nat :| BackupKey(dir, u, stamp) == least;
    forall v: nat | BackupKey(dir, v, stamp) in b ensures StringLe(least, BackupKey(dir, v, stamp)) {
      assert IsBackupAt(dir, stamp, BackupKey(dir, v, stamp));
    }
    assert IsFirstBackup(b, dir, stamp, u);
  }

  lemma BackupTermFacts(b: Bucket, dir: string, stamp: nat)
    ensures match BackupTerm(b, dir, stamp)
            case Some(t) => IsFirstBackup(b, dir, stamp, t)
            case None => forall t: nat :: BackupKey(dir, t, stamp) !in b
  {
    forall t: nat | BackupKey(dir, t, stamp) in b ensures BackupTerm(b, dir, stamp).Some? {
      FirstBackupExists(b, dir, stamp, t);
    }
  }

  lemma OnlyBackup(b: Bucket, dir: string, stamp: nat, t: nat)
    requires FreeOf(dir, {'/'}) && OneBackup(b, dir, stamp) && BackupKey(dir, t, stamp) in b
    ensures BackupTerm(b, dir, stamp) == Some(t)
  {
    BackupTermFacts(b, dir, stamp);
  }

  /** A listing in the order of keys, or of a partition with at most one backup of the stamp. */
  ghost predicate FindsFirst(b: Bucket, dir: string, listing: seq<string>, stamp: nat) {
    IsListing(b, dir, listing) && (Sorted(listing, StringLe) || OneBackup(b, dir, stamp))
  }

  ghost predicate IsHighest(b: Bucket, dir: string, m: nat) {
    CurrentKey(dir, m) in b && forall t: nat :: CurrentKey(dir, t) in b ==> t <= m
  }

  /** The highest term of a current manifest. */
  ghost function Highest(b: Bucket, dir: string): Option<nat> {
    if m: nat :| IsHighest(b, dir, m) then Some(m) else None
  }

  /** The manifest that a database reads: the current one with the highest term. */
  ghost function Visible(b: Bucket, dir: string): Option<Bytes> {
    match Highest(b, dir)
    case Some(m) => Get(b, CurrentKey(dir, m))
    case None => None
  }

  function Get(b: Bucket, k: string): Option<Bytes> {
    if k in b then Some(b[k]) else None
  }

  ghost function Dest(b: Bucket, dir: string, term: nat): nat {
    Highest(b, dir).GetOr(term)
  }

  /** The reference meaning of restoring one partition: a partition with a backup gets it as its
      highest current manifest, a partition without one loses its current manifests. */
  ghost function RestoreDir(b: Bucket, dir: string, stamp: nat): Bucket {
    match BackupTerm(b, dir, stamp)
    case Some(t) => b[CurrentKey(dir, Dest(b, dir, t)) := Get(b, BackupKey(dir, t, stamp)).GetOr([])]
    case None => map k | k in b && !IsCurrentOf(dir, k) :: b[k]
  }

  lemma CurrentIsManifest(dir: string, t: nat)
    ensures ManifestPrefix(dir) <= CurrentKey(dir, t)
    ensures t <= U64_MAX ==> IsCurrentOf(dir, CurrentKey(dir, t))
  {
  }

  lemma CurrentHasPrefix(dir: string, k: string)
    ensures IsCurrentOf(dir, k) ==> ManifestPrefix(dir) <= k
  {
    if IsCurrentOf(dir, k) {
      var t: nat :| t <= U64_MAX && CurrentKey(dir, t) == k;
      CurrentIsManifest(dir, t);
    }
  }

  lemma BackupIsManifest(dir: string, t: nat, s: nat)
    ensures ManifestPrefix(dir) <= BackupKey(dir, t, s)
  {
  }

  /** In a tidy partition the terms fit the integer type. */
  lemma TidyTerms(b: Bucket, dir: string)
    requires Tidy(b, dir) && FreeOf(dir, {'/'})
    ensures forall t: nat :: CurrentKey(dir, t) in b ==> t <= U64_MAX
    ensures forall t: nat, s: nat :: BackupKey(dir, t, s) in b ==> t <= U64_MAX
  {
    forall t: nat | CurrentKey(dir, t) in b ensures t <= U64_MAX {
      CurrentIsManifest(dir, t);
      var k := CurrentKey(dir, t);
      if IsCurrentOf(dir, k) {
        var t': nat :| t' <= U64_MAX && CurrentKey(dir, t') == k;
        CurrentKeyInjective(dir, t, dir, t');
      } else {
        var t': nat, s': nat :| t' <= U64_MAX && BackupKey(dir, t', s') == k;
        BackupIsNotCurrent(dir, t', s', dir, t);
      }
    }
    forall t: nat, s: nat | BackupKey(dir, t, s) in b ensures t <= U64_MAX {
      BackupIsManifest(dir, t, s);
      var k := BackupKey(dir, t, s);
      if IsCurrentOf(dir, k) {
        var t': nat :| t' <= U64_MAX && CurrentKey(dir, t') == k;
        BackupIsNotCurrent(dir, t, s, dir, t');
      } else {
        var t': nat, s': nat :| t' <= U64_MAX && BackupKey(dir, t', s') == k;
        BackupKeyInjective(dir, t, s, dir, t', s');
      }
    }
  }

  lemma {:induction false} HighestExists(b: Bucket, dir: string, t: nat, bound: nat)
    requires CurrentKey(dir, t) in b && forall u: nat :: CurrentKey(dir, u) in b ==> u <= bound
    ensures Highest(b, dir).Some? && IsHighest(b, dir, Highest(b, dir).value)
  {
    if CurrentKey(dir, bound) in b {
      assert IsHighest(b, dir, bound);
    } else {
      HighestExists(b, dir, t, bound - 1);
    }
  }

  lemma HighestIs(b: Bucket, dir: string, m: nat)
    requires IsHighest(b, dir, m)
    ensures Highest(b, dir) == Some(m)
  {
  }

  /** What `Highest` returns in a tidy partition. */
  lemma HighestFacts(b: Bucket, dir: string)
    requires Tidy(b, dir) && FreeOf(dir, {'/'})
    ensures Highest(b, dir).Some? ==> IsHighest(b, dir, Highest(b, dir).value)
    ensures Highest(b, dir).None? ==> forall t: nat :: CurrentKey(dir, t) !in b
  {
    TidyTerms(b, dir);
    forall t: nat | CurrentKey(dir, t) in b ensures Highest(b, dir).Some? { HighestExists(b, dir, t, U64_MAX); }
  }

  /* ---------- the plan, for every tidy partition ---------- */

  lemma {:induction false} FirstMatchFacts(listing: seq<string>, pattern: string)
    ensures var r := FirstMatch(listing, pattern);
            && (r.Some? ==> r.value in listing && EndsWith(r.value, pattern))
            && (r.None? ==> forall k :: k in listing ==> !EndsWith(k, pattern))
  {
    if listing != [] {
      FirstMatchFacts(listing[1..], pattern);
      assert listing == [listing[0]] + listing[1..];
    }
  }

  /** A key that counts for the highest term, and the term it counts with. */
  predicate CountsAs(k: string, pattern: string, term: nat) {
    !Contains(k, pattern) && ExtractTermFromCurrent(k) == Some(term)
  }

  lemma {:induction false} HighestTermFacts(listing: seq<string>, pattern: string)
    ensures var r := HighestTerm(listing, pattern);
            && (r.Some? ==> exists k :: k in listing && CountsAs(k, pattern, r.value))
            && (forall k, t: nat :: k in listing && CountsAs(k, pattern, t) ==> r.Some? && t <= r.value)
  {
    if listing != [] {
      HighestTermFacts(listing[1..], pattern);
      assert listing == [listing[0]] + listing[1..];
      var r, rest := HighestTerm(listing, pattern), HighestTerm(listing[1..], pattern);
      if r.Some? && r == rest {
        var k :| k in listing[1..] && CountsAs(k, pattern, r.value);
        assert k in listing;
      } else if r.Some? {
        assert CountsAs(listing[0], pattern, r.value);
      }
    }
  }

  /** A listed key is a current manifest or a backup, and reads back as one. */
  lemma ListedKey(b: Bucket, dir: string, listing: seq<string>, k: string, stamp: nat)
    requires Tidy(b, dir) && FreeOf(dir, {'/'}) && IsListing(b, dir, listing) && k in listing
    ensures IsCurrentName(k) <==> IsCurrentOf(dir, k)
    ensures ExtractTermFromCurrent(k).Some? ==> CurrentKey(dir, ExtractTermFromCurrent(k).value) == k
    ensures EndsWith(k, StampPattern(Decimal(stamp))) ==>
              k == CurrentKey(dir, stamp) || exists t: nat :: BackupKey(dir, t, stamp) == k
  {
    var pattern := StampPattern(Decimal(stamp));
    if IsCurrentOf(dir, k) {
      var t: nat :| t <= U64_MAX && CurrentKey(dir, t) == k;
      CurrentKeyRead(dir, t);
      EndsInStamp(dir, t, 0, stamp);
    } else {
      var t: nat, s: nat :| t <= U64_MAX && BackupKey(dir, t, s) == k;
      BackupKeyRead(dir, t, s);
      EndsInStamp(dir, t, s, stamp);
    }
  }

  /** The highest term the source finds: that of the highest current manifest that is not shadowed. */
  lemma HighestTermMeans(b: Bucket, dir: string, listing: seq<string>, stamp: nat)
    requires Tidy(b, dir) && FreeOf(dir, {'/'}) && IsListing(b, dir, listing)
    ensures var r := HighestTerm(listing, StampPattern(Decimal(stamp)));
            && (r.Some? ==> CurrentKey(dir, r.value) in b && !Shadowed(dir, r.value, stamp))
            && (forall t: nat :: CurrentKey(dir, t) in b && !Shadowed(dir, t, stamp) ==> r.Some? && t <= r.value)
  {
    var pattern := StampPattern(Decimal(stamp));
    var r := HighestTerm(listing, pattern);
    HighestTermFacts(listing, pattern);
    if r.Some? {
      var k :| k in listing && CountsAs(k, pattern, r.value);
      ListedKey(b, dir, listing, k, stamp);
      CurrentContainsStamp(dir, r.value, stamp);
    }
    TidyTerms(b, dir);
    forall t: nat | CurrentKey(dir, t) in b && !Shadowed(dir, t, stamp) ensures r.Some? && t <= r.value {
      CurrentContainsStamp(dir, t, stamp);
      CurrentIsManifest(dir, t);
      CurrentKeyRead(dir, t);
      assert CurrentKey(dir, t) in listing && CountsAs(CurrentKey(dir, t), pattern, t);
    }
  }

  /** The key by which a partition's case is decided: none, the current manifest whose term is the
      stamp, or a backup of the stamp. */
  lemma MatchCases(b: Bucket, dir: string, listing: seq<string>, stamp: nat)
    requires Tidy(b, dir) && FreeOf(dir, {'/'}) && IsListing(b, dir, listing)
    ensures match FirstMatch(listing, StampPattern(Decimal(stamp)))
            case None => CurrentKey(dir, stamp) !in b && forall t: nat :: BackupKey(dir, t, stamp) !in b
            case Some(k) => k in b && (k == CurrentKey(dir, stamp) || exists t: nat :: BackupKey(dir, t, stamp) == k)
  {
    var pattern := StampPattern(Decimal(stamp));
    var r := FirstMatch(listing, pattern);
    FirstMatchFacts(listing, pattern);
    if r.Some? {
      ListedKey(b, dir, listing, r.value, stamp);
    } else {
      CurrentIsManifest(dir, stamp);
      EndsInStamp(dir, stamp, 0, stamp);
      forall t: nat ensures BackupKey(dir, t, stamp) !in b {
        BackupIsManifest(dir, t, stamp);
        EndsInStamp(dir, t, stamp, stamp);
      }
    }
  }

  /** Where the copy goes when the key found first is a backup. */
  lemma CopyPlan(b: Bucket, dir: string, listing: seq<string>, stamp: nat, t: nat)
    requires Tidy(b, dir) && FreeOf(dir, {'/'}) && IsListing(b, dir, listing)
    requires FirstMatch(listing, StampPattern(Decimal(stamp))) == Some(BackupKey(dir, t, stamp))
    ensures RestorePlan(listing, dir, Decimal(stamp))
         == Some(Plan([Copy(BackupKey(dir, t, stamp),
                            CurrentKey(dir, HighestTerm(listing, StampPattern(Decimal(stamp))).GetOr(t)))], Restored))
  {
    FirstMatchFacts(listing, StampPattern(Decimal(stamp)));
    TidyTerms(b, dir);
    BackupKeyRead(dir, t, stamp);
  }

  /** When no key is found the plan deletes exactly the current manifests. */
  lemma DeletePlan(b: Bucket, dir: string, listing: seq<string>, stamp: nat)
    requires Tidy(b, dir) && FreeOf(dir, {'/'}) && IsListing(b, dir, listing)
    requires FirstMatch(listing, StampPattern(Decimal(stamp))).None?
    ensures var current := CurrentNames(listing);
            && RestorePlan(listing, dir, Decimal(stamp))
              == Some(Plan(DeleteOps(current), if current != [] then Deleted else Skipped))
            && forall k :: k in current <==> k in b && IsCurrentOf(dir, k)
  {
    FilterMembers(IsCurrentName, listing);
    forall k ensures k in CurrentNames(listing) <==> k in b && IsCurrentOf(dir, k) {
      if k in listing { ListedKey(b, dir, listing, k, stamp); }
      CurrentHasPrefix(dir, k);
    }
  }

  lemma CurrentIsNoBackup(dir: string, term: nat, stamp: nat)
    ensures ExtractTermFromBackup(CurrentKey(dir, term), Decimal(stamp)) == None
  {
    var digits, pattern := Decimal(term), StampPattern(Decimal(stamp));
    DigitsAreFree(digits);
    SegmentOf(dir, digits);
    if EndsWith(digits, pattern) { FirstOfSuffix(digits, pattern); }
  }

  lemma FirstOfSuffix(s: string, t: string)
    requires EndsWith(s, t) && t != ""
    ensures t[0] in s
  {
    assert s[|s| - |t|] == t[0];
  }

  /** The restore of a partition fails before it changes anything exactly when the key found first is
      the current manifest whose term is the stamp. */
  lemma PlanFailsIff(b: Bucket, dir: string, listing: seq<string>, stamp: nat)
    requires Tidy(b, dir) && FreeOf(dir, {'/'}) && IsListing(b, dir, listing)
    ensures RestorePlan(listing, dir, Decimal(stamp)).None?
       <==> FirstMatch(listing, StampPattern(Decimal(stamp))) == Some(CurrentKey(dir, stamp))
  {
    MatchCases(b, dir, listing, stamp);
    match FirstMatch(listing, StampPattern(Decimal(stamp)))
    case None =>
    case Some(k) =>
      if k == CurrentKey(dir, stamp) {
        CurrentIsNoBackup(dir, stamp, stamp);
      } else {
        var t: nat :| BackupKey(dir, t, stamp) == k;
        CopyPlan(b, dir, listing, stamp, t);
      }
  }

  lemma {:induction false} FirstMatchIsFirst(listing: seq<string>, pattern: string)
    requires Sorted(listing, StringLe) && FirstMatch(listing, pattern).Some?
    ensures forall k :: k in listing && EndsWith(k, pattern) ==> StringLe(FirstMatch(listing, pattern).value, k)
  {
    assert listing == [listing[0]] + listing[1..];
    StringLeConnected(listing[0], listing[0]);
    if !EndsWith(listing[0], pattern) { FirstMatchIsFirst(listing[1..], pattern); }
  }

  /** When no current term equals the stamp, the first backup is what is found. */
  lemma FoundBackup(b: Bucket, dir: string, listing: seq<string>, stamp: nat, t: nat)
    requires Tidy(b, dir) && FreeOf(dir, {'/'}) && FindsFirst(b, dir, listing, stamp)
    requires BackupTerm(b, dir, stamp) == Some(t) && CurrentKey(dir, stamp) !in b
    ensures FirstMatch(listing, StampPattern(Decimal(stamp))) == Some(BackupKey(dir, t, stamp))
  {
    var pattern := StampPattern(Decimal(stamp));
    MatchCases(b, dir, listing, stamp);
    BackupTermFacts(b, dir, stamp);
    var u: nat :| FirstMatch(listing, pattern) == Some(BackupKey(dir, u, stamp));
    if Sorted(listing, StringLe) {
      FirstMatchIsFirst(listing, pattern);
      BackupIsManifest(dir, t, stamp);
      EndsInStamp(dir, t, stamp, stamp);
      StringLeAntisymmetric(BackupKey(dir, t, stamp), BackupKey(dir, u, stamp));
    }
  }

  lemma FoundNothing(b: Bucket, dir: string, listing: seq<string>, stamp: nat)
    requires Tidy(b, dir) && FreeOf(dir, {'/'}) && IsListing(b, dir, listing)
    requires CurrentKey(dir, stamp) !in b && forall t: nat :: BackupKey(dir, t, stamp) !in b
    ensures FirstMatch(listing, StampPattern(Decimal(stamp))).None?
  {
    MatchCases(b, dir, listing, stamp);
  }

  lemma {:induction false} ApplyDeletes(b: Bucket, keys: seq<string>)
    ensures ApplyOps(b, DeleteOps(keys)) == map k | k in b && k !in keys :: b[k]
  {
    if keys != [] {
      assert DeleteOps(keys)[1..] == DeleteOps(keys[1..]);
      ApplyDeletes(b - {keys[0]}, keys[1..]);
      assert keys == [keys[0]] + keys[1..];
    }
  }

  /** For a partition whose terms lie below the stamp, the planned requests, carried out to the end,
      do what restoring means, and the reported outcome says which case it was. */
  lemma PlanRestores(b: Bucket, dir: string, listing: seq<string>, stamp: nat)
    requires Restorable(b, dir, stamp) && FindsFirst(b, dir, listing, stamp)
    ensures var plan := RestorePlan(listing, dir, Decimal(stamp));
            && plan.Some?
            && ApplyOps(b, plan.value.ops) == RestoreDir(b, dir, stamp)
            && (plan.value.outcome == Restored <==> exists t: nat :: BackupKey(dir, t, stamp) in b)
            && (plan.value.outcome == Skipped <==> RestoreDir(b, dir, stamp) == b && plan.value.ops == [])
  {
    assert CurrentKey(dir, stamp) !in b;
    BackupTermFacts(b, dir, stamp);
    match BackupTerm(b, dir, stamp)
    case Some(t) =>
      FoundBackup(b, dir, listing, stamp, t);
      CopyPlan(b, dir, listing, stamp, t);
      ClearDestination(b, dir, listing, stamp);
      var copy := Copy(BackupKey(dir, t, stamp), CurrentKey(dir, Dest(b, dir, t)));
      assert ApplyOps(b, [copy]) == ApplyOp(b, copy);
    case None =>
      FoundNothing(b, dir, listing, stamp);
      DeletePlan(b, dir, listing, stamp);
      ApplyDeletes(b, CurrentNames(listing));
      var current := CurrentNames(listing);
      if current == [] {
        assert RestoreDir(b, dir, stamp) == b;
      } else {
        assert DeleteOps(current)[0] == Delete(current[0]);
      }
  }

  /** Nothing is shadowed when the terms lie below the stamp: the copy goes to the highest term. */
  lemma ClearDestination(b: Bucket, dir: string, listing: seq<string>, stamp: nat)
    requires Restorable(b, dir, stamp) && IsListing(b, dir, listing)
    ensures HighestTerm(listing, StampPattern(Decimal(stamp))) == Highest(b, dir)
  {
    HighestTermMeans(b, dir, listing, stamp);
    HighestFacts(b, dir);
    forall t: nat | CurrentKey(dir, t) in b ensures !Shadowed(dir, t, stamp) { SmallTermsAreClear(dir, t, stamp); }
  }

  /** The destination of the copy is the highest current manifest after it. */
  ghost predicate CopiesToHighest(b: Bucket, dir: string, copy: Op)
    requires copy.Copy?
  {
    exists m: nat :: copy.dst == CurrentKey(dir, m) && IsHighest(ApplyOp(b, copy), dir, m)
  }

  ghost predicate AllShadowed(b: Bucket, dir: string, stamp: nat) {
    forall u: nat :: CurrentKey(dir, u) in b ==> Shadowed(dir, u, stamp)
  }

  /** Whatever the terms are: when a backup is found, its copy becomes the highest current manifest
      exactly when there was none, when the highest one is not shadowed, or when all of them are and
      the backup's own term is at least as high. */
  lemma CopyGoesToHighestIff(b: Bucket, dir: string, listing: seq<string>, stamp: nat, t: nat)
    requires Tidy(b, dir) && FreeOf(dir, {'/'}) && IsListing(b, dir, listing)
    requires FirstMatch(listing, StampPattern(Decimal(stamp))) == Some(BackupKey(dir, t, stamp))
    ensures var plan := RestorePlan(listing, dir, Decimal(stamp));
            && plan.Some? && |plan.value.ops| == 1 && plan.value.ops[0].Copy?
            && (CopiesToHighest(b, dir, plan.value.ops[0]) <==>
                  || Highest(b, dir).None?
                  || !Shadowed(dir, Highest(b, dir).value, stamp)
                  || (Highest(b, dir).value <= t && AllShadowed(b, dir, stamp)))
  {
    FirstMatchFacts(listing, StampPattern(Decimal(stamp)));
    CopyPlan(b, dir, listing, stamp, t);
    HighestTermMeans(b, dir, listing, stamp);
    HighestFacts(b, dir);
    var r := HighestTerm(listing, StampPattern(Decimal(stamp)));
    var d := r.GetOr(t);
    var copy := Copy(BackupKey(dir, t, stamp), CurrentKey(dir, d));
    var b' := ApplyOp(b, copy);
    CurrentsAfterCopy(b, b', dir, d, b[BackupKey(dir, t, stamp)]);
    assert CopiesToHighest(b, dir, copy) <==> IsHighest(b', dir, d) by {
      forall m: nat | copy.dst == CurrentKey(dir, m) ensures m == d { CurrentKeyInjective(dir, m, dir, d); }
    }
  }

  lemma CurrentsAfterCopy(b: Bucket, b': Bucket, dir: string, d: nat, content: Bytes)
    requires FreeOf(dir, {'/'}) && b' == b[CurrentKey(dir, d) := content]
    ensures forall u: nat :: CurrentKey(dir, u) in b' <==> CurrentKey(dir, u) in b || u == d
  {
    forall u: nat | CurrentKey(dir, u) == CurrentKey(dir, d) ensures u == d { CurrentKeyInjective(dir, u, dir, d); }
  }
}
