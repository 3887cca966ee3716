/** Object keys of partition manifests and the string tests by which restore and delete tell them
    apart: `<dir>/manifest_<term>` is current, `<dir>/manifest_<term>_<ts>` is a backup. */
module ManifestKeys {
  import opened Wrappers
  import opened Text

  function ManifestPrefix(dir: string): string { dir + "/manifest_" }

  function CurrentKey(dir: string, term: nat): string { ManifestPrefix(dir) + Decimal(term) }

  function BackupKey(dir: string, term: nat, stamp: nat): string {
    ManifestPrefix(dir) + Decimal(term) + "_" + Decimal(stamp)
  }

  /** What a backup's key ends in. */
  function StampPattern(stamp: string): string { "_" + stamp }

  /** The term of `manifest_<term>_<stamp>`, or `None` where the source reports an error. */
  function ExtractTermFromBackup(key: string, stamp: string): Option<nat> {
    match StripPrefix(LastSegment(key), "manifest_")
    case None => None
    case Some(rest) =>
      match StripSuffix(rest, StampPattern(stamp))
      case None => None
      case Some(term) => ParseUnsigned(term, U64_MAX)
  }

  /** The term of `manifest_<term>`. */
  function ExtractTermFromCurrent(key: string): Option<nat> {
    match StripPrefix(LastSegment(key), "manifest_")
    case None => None
    case Some(term) => ParseUnsigned(term, U64_MAX)
  }

  /** The test by which restore picks the manifests it deletes. */
  predicate IsCurrentName(key: string) {
    match StripPrefix(LastSegment(key), "manifest_")
    case None => false
    case Some(term) => '_' !in term && ParseUnsigned(term, U64_MAX).Some?
  }

  /* ---------- partition directories ---------- */

  /** The position just behind the last dot. */
  function AfterLastDot(s: string): Option<nat> {
    if s == [] then None
    else if s[|s| - 1] == '.' then Some(|s|)
    else AfterLastDot(s[..|s| - 1])
  }

  lemma {:induction false} AfterLastDotBound(s: string)
    ensures AfterLastDot(s).Some? ==> AfterLastDot(s).value <= |s|
  {
    if s != [] && s[|s| - 1] != '.' { AfterLastDotBound(s[..|s| - 1]); }
  }

  /** `<table>.<partition id>` */
  predicate IsPartitionName(dir: string) {
    AfterLastDotBound(dir);
    match AfterLastDot(dir)
    case None => false
    case Some(p) => ParseUnsigned(dir[p..], U32_MAX).Some?
  }

  lemma {:induction false} AfterLastDotSplits(s: string)
    ensures match AfterLastDot(s)
            case Some(p) => 1 <= p <= |s| && s[p - 1] == '.' && FreeOf(s[p..], {'.'})
            case None => FreeOf(s, {'.'})
  {
    if s != [] && s[|s| - 1] != '.' {
      var front := s[..|s| - 1];
      AfterLastDotSplits(front);
      assert s == front + [s[|s| - 1]];
      match AfterLastDot(front)
      case Some(p) => assert s[p..] == front[p..] + [s[|s| - 1]];
      case None =>
    }
  }

  lemma {:induction false} DotIsLast(table: string, tail: string)
    requires FreeOf(tail, {'.'})
    ensures AfterLastDot(table + "." + tail) == Some(|table| + 1) && (table + "." + tail)[|table| + 1..] == tail
    decreases |tail|
  {
    var s := table + "." + tail;
    if tail != "" {
      var front := tail[..|tail| - 1];
      assert s[..|s| - 1] == table + "." + front && s[|s| - 1] == tail[|tail| - 1];
      DotIsLast(table, front);
    }
  }

  ghost predicate IsPartitionOf(dir: string, table: string, tail: string) {
    dir == table + "." + tail && FreeOf(tail, {'.'}) && ParseUnsigned(tail, 0xFFFF_FFFF).Some?
  }

  lemma NamedPartition(dir: string, table: string, tail: string)
    requires IsPartitionOf(dir, table, tail)
    ensures IsPartitionName(dir)
  {
    AfterLastDotBound(dir);
    DotIsLast(table, tail);
  }

  /** A table name, a dot, and behind the last dot a 32-bit number. */
  lemma PartitionNameIff(dir: string)
    ensures IsPartitionName(dir) <==> exists table: string, tail: string :: IsPartitionOf(dir, table, tail)
  {
    if IsPartitionName(dir) {
      AfterLastDotSplits(dir);
      var p := AfterLastDot(dir).value;
      assert dir == dir[..p - 1] + "." + dir[p..];
      assert IsPartitionOf(dir, dir[..p - 1], dir[p..]);
    }
    if table: string, tail: string :| IsPartitionOf(dir, table, tail) { NamedPartition(dir, table, tail); }
  }

  lemma DecimalHasNoDot(n: nat)
    ensures FreeOf(Decimal(n), {'.', '/'})
  {
    var s := Decimal(n);
    forall i | 0 <= i < |s| ensures s[i] !in {'.', '/'} { assert IsDigit(s[i]); }
  }

  /** The directory of partition `id` of a table is a partition's as far as the id has 32 bits. */
  lemma NumberedPartition(table: string, id: nat)
    ensures IsPartitionName(table + "." + Decimal(id)) <==> id <= 0xFFFF_FFFF
  {
    DecimalHasNoDot(id);
    assert FreeOf(Decimal(id), {'.'});
    DotIsLast(table, Decimal(id));
    ParseDecimal(id, U32_MAX);
  }

  function FirstSegment(key: string): string { Split(key, {'/'})[0] }

  /** The partition directories that a delimiter listing of the keys reports. */
  function PartitionDirs(keys: set<string>): set<string> {
    set k | k in keys && '/' in k && IsPartitionName(FirstSegment(k)) :: FirstSegment(k)
  }

  lemma FirstSegmentOf(dir: string, rest: string)
    requires FreeOf(dir, {'/'})
    ensures FirstSegment(dir + "/" + rest) == dir
  {
    SplitAt(dir, '/', rest, {'/'});
    SplitFree(dir, {'/'});
  }

  lemma FirstSegmentFree(key: string)
    ensures FreeOf(FirstSegment(key), {'/'})
  {
    SplitPiecesFree(key, {'/'});
    assert FirstSegment(key) in Split(key, {'/'});
  }

  lemma PartitionDirsAreFree(keys: set<string>)
    ensures forall d :: d in PartitionDirs(keys) ==> FreeOf(d, {'/'})
  {
    forall d | d in PartitionDirs(keys) ensures FreeOf(d, {'/'}) {
      var k :| k in keys && FirstSegment(k) == d;
      FirstSegmentFree(k);
    }
  }

  /** A directory is listed exactly when a key lies below it and its name is a partition's. */
  lemma ListedIff(keys: set<string>, dir: string)
    ensures dir in PartitionDirs(keys) <==>
              IsPartitionName(dir) && FreeOf(dir, {'/'}) && exists rest: string :: dir + "/" + rest in keys
  {
    PartitionDirsAreFree(keys);
    if dir in PartitionDirs(keys) {
      var k :| k in keys && '/' in k && FirstSegment(k) == dir;
      var rest := BehindFirst(k);
      assert dir + "/" + rest in keys;
    }
    if rest: string :| IsPartitionName(dir) && FreeOf(dir, {'/'}) && dir + "/" + rest in keys {
      FirstSegmentOf(dir, rest);
      assert (dir + "/" + rest)[|dir|] == '/';
    }
  }

  lemma {:induction false} BehindFirst(key: string) returns (rest: string)
    requires '/' in key
    ensures key == FirstSegment(key) + "/" + rest
  {
    if key[0] == '/' {
      rest := key[1..];
      assert Split(key, {'/'})[0] == "";
    } else {
      rest := BehindFirst(key[1..]);
      assert FirstSegment(key) == [key[0]] + FirstSegment(key[1..]);
      assert key == [key[0]] + key[1..];
    }
  }

  /** A directory with a manifest is listed. */
  lemma ManifestIsListed(keys: set<string>, dir: string, file: string)
    requires FreeOf(dir, {'/'}) && IsPartitionName(dir) && ManifestPrefix(dir) + file in keys
    ensures dir in PartitionDirs(keys)
  {
    var k := ManifestPrefix(dir) + file;
    assert k == dir + "/" + ("manifest_" + file);
    FirstSegmentOf(dir, "manifest_" + file);
    assert k[|dir|] == '/';
  }

  /** A table's partition that has a manifest is listed, whatever the table is called. */
  lemma ManifestMakesPartition(keys: set<string>, table: string, id: nat, file: string)
    requires FreeOf(table, {'/'}) && id <= 0xFFFF_FFFF
    requires table + "." + Decimal(id) + "/manifest_" + file in keys
    ensures table + "." + Decimal(id) in PartitionDirs(keys)
  {
    var dir := table + "." + Decimal(id);
    NumberedPartition(table, id);
    DecimalHasNoDot(id);
    assert FreeOf(dir, {'/'});
    assert ManifestPrefix(dir) + file == table + "." + Decimal(id) + "/manifest_" + file;
    ManifestIsListed(keys, dir, file);
  }

  /* ---------- classification ---------- */

  lemma SegmentOf(dir: string, name: string)
    requires FreeOf(name, {'/'})
    ensures LastSegment(ManifestPrefix(dir) + name) == "manifest_" + name
    ensures StripPrefix("manifest_" + name, "manifest_") == Some(name)
  {
    assert ManifestPrefix(dir) + name == dir + "/" + ("manifest_" + name);
    assert FreeOf("manifest_", {'/'});
    LastSegmentOf(dir, "manifest_" + name);
    assert ("manifest_" + name)[|"manifest_"|..] == name;
  }

  lemma DigitsAreFree(s: string)
    requires AllDigits(s)
    ensures FreeOf(s, {'/'}) && '_' !in s
  {
    assert forall i :: 0 <= i < |s| ==> IsDigit(s[i]);
  }

  lemma NamedBehind(segment: string, name: string, rest: string)
    ensures segment == name + rest <==> StripPrefix(segment, name) == Some(rest)
  {
    if name <= segment { assert segment == name + segment[|name|..]; }
    assert (name + rest)[|name|..] == rest;
  }

  /** A key is a current manifest's, of this term, exactly when its last segment is `manifest_` and the
      term as a 64-bit number. */
  lemma CurrentNameIff(key: string, term: nat)
    ensures ExtractTermFromCurrent(key) == Some(term) <==>
              exists text: string :: LastSegment(key) == "manifest_" + text
                                     && ParseUnsigned(text, 0xFFFF_FFFF_FFFF_FFFF) == Some(term)
    ensures IsCurrentName(key) <==> ExtractTermFromCurrent(key).Some?
  {
    var segment := LastSegment(key);
    forall text: string ensures segment == "manifest_" + text <==> StripPrefix(segment, "manifest_") == Some(text) {
      NamedBehind(segment, "manifest_", text);
    }
    if StripPrefix(segment, "manifest_").Some? {
      var text := StripPrefix(segment, "manifest_").value;
      if '_' in text {
        var i :| 0 <= i < |text| && text[i] == '_';
        ParseRejects(text, i, U64_MAX);
      }
    }
  }

  ghost predicate IsBackupSegment(segment: string, text: string, stamp: string, term: nat) {
    segment == "manifest_" + (text + "_" + stamp) && ParseUnsigned(text, 0xFFFF_FFFF_FFFF_FFFF) == Some(term)
  }

  lemma BackupSegmentRead(key: string, text: string, stamp: string, term: nat)
    requires IsBackupSegment(LastSegment(key), text, stamp, term)
    ensures ExtractTermFromBackup(key, stamp) == Some(term)
  {
    var rest := text + "_" + stamp;
    NamedBehind(LastSegment(key), "manifest_", rest);
    assert rest[|rest| - |StampPattern(stamp)|..] == StampPattern(stamp);
    assert rest[..|rest| - |StampPattern(stamp)|] == text;
  }

  lemma BackupSegmentOf(key: string, stamp: string) returns (text: string)
    requires ExtractTermFromBackup(key, stamp).Some?
    ensures IsBackupSegment(LastSegment(key), text, stamp, ExtractTermFromBackup(key, stamp).value)
  {
    var rest := StripPrefix(LastSegment(key), "manifest_").value;
    NamedBehind(LastSegment(key), "manifest_", rest);
    text := StripSuffix(rest, StampPattern(stamp)).value;
    assert rest == text + StampPattern(stamp);
    assert text + StampPattern(stamp) == text + "_" + stamp;
  }

  /** A key is a backup's with this stamp and term exactly when its last segment is `manifest_`, the term
      as a 64-bit number, an underscore and the stamp. */
  lemma BackupNameIff(key: string, stamp: string, term: nat)
    ensures ExtractTermFromBackup(key, stamp) == Some(term) <==>
              exists text: string :: IsBackupSegment(LastSegment(key), text, stamp, term)
  {
    if text: string :| IsBackupSegment(LastSegment(key), text, stamp, term) {
      BackupSegmentRead(key, text, stamp, term);
    } else if ExtractTermFromBackup(key, stamp) == Some(term) {
      var found := BackupSegmentOf(key, stamp);
    }
  }

  lemma CurrentKeyRead(dir: string, term: nat)
    ensures ExtractTermFromCurrent(CurrentKey(dir, term)) == (if term <= U64_MAX then Some(term) else None)
    ensures IsCurrentName(CurrentKey(dir, term)) <==> term <= U64_MAX
  {
    DigitsAreFree(Decimal(term));
    SegmentOf(dir, Decimal(term));
    ParseDecimal(term, U64_MAX);
  }

  lemma BackupName(dir: string, term: nat, stamp: nat)
    ensures LastSegment(BackupKey(dir, term, stamp)) == "manifest_" + (Decimal(term) + "_" + Decimal(stamp))
    ensures StripPrefix(LastSegment(BackupKey(dir, term, stamp)), "manifest_")
         == Some(Decimal(term) + "_" + Decimal(stamp))
  {
    var name := Decimal(term) + "_" + Decimal(stamp);
    DigitsAreFree(Decimal(term));
    DigitsAreFree(Decimal(stamp));
    assert BackupKey(dir, term, stamp) == ManifestPrefix(dir) + name;
    SegmentOf(dir, name);
  }

  lemma BackupIsNotRead(dir: string, term: nat, stamp: nat)
    ensures ExtractTermFromCurrent(BackupKey(dir, term, stamp)) == None && !IsCurrentName(BackupKey(dir, term, stamp))
  {
    BackupName(dir, term, stamp);
    ParseRejects(Decimal(term) + "_" + Decimal(stamp), |Decimal(term)|, U64_MAX);
  }

  lemma StampIsStripped(digits: string, stamp: string)
    ensures StripSuffix(digits + "_" + stamp, StampPattern(stamp)) == Some(digits)
  {
    var name := digits + "_" + stamp;
    assert name[|name| - |StampPattern(stamp)|..] == StampPattern(stamp);
    assert name[..|name| - |StampPattern(stamp)|] == digits;
  }

  lemma BackupKeyRead(dir: string, term: nat, stamp: nat)
    ensures ExtractTermFromCurrent(BackupKey(dir, term, stamp)) == None
    ensures !IsCurrentName(BackupKey(dir, term, stamp))
    ensures ExtractTermFromBackup(BackupKey(dir, term, stamp), Decimal(stamp))
         == (if term <= U64_MAX then Some(term) else None)
  {
    BackupIsNotRead(dir, term, stamp);
    BackupName(dir, term, stamp);
    StampIsStripped(Decimal(term), Decimal(stamp));
    ParseDecimal(term, U64_MAX);
  }

  /** A backup's term is read with the backup's own stamp and with no other. */
  lemma BackupKeyReadAs(dir: string, term: nat, stamp: nat, sought: nat)
    ensures ExtractTermFromBackup(BackupKey(dir, term, stamp), Decimal(sought))
         == if sought == stamp && term <= U64_MAX then Some(term) else None
  {
    if sought == stamp {
      BackupKeyRead(dir, term, stamp);
    } else {
      var t, s := Decimal(term), Decimal(stamp);
      DigitsAreFree(t);
      DigitsAreFree(s);
      assert BackupKey(dir, term, stamp) == ManifestPrefix(dir) + (t + "_" + s);
      SegmentOf(dir, t + "_" + s);
      UnderscoreTail(t, s, Decimal(sought));
      if s == Decimal(sought) { DecimalInjective(stamp, sought); }
    }
  }

  /** A backup ends in its own stamp only; a current manifest ends in a stamp only if its term is
      the stamp. */
  lemma EndsInStamp(dir: string, term: nat, stamp: nat, sought: nat)
    ensures EndsWith(BackupKey(dir, term, stamp), StampPattern(Decimal(sought))) <==> stamp == sought
    ensures EndsWith(CurrentKey(dir, term), StampPattern(Decimal(sought))) <==> term == sought
  {
    UnderscoreTail(ManifestPrefix(dir) + Decimal(term), Decimal(stamp), Decimal(sought));
    if Decimal(stamp) == Decimal(sought) { DecimalInjective(stamp, sought); }
    assert CurrentKey(dir, term) == (dir + "/manifest") + "_" + Decimal(term);
    UnderscoreTail(dir + "/manifest", Decimal(term), Decimal(sought));
    if Decimal(term) == Decimal(sought) { DecimalInjective(term, sought); }
  }

  /** The current manifests that the pattern test wrongly takes for backups. */
  predicate Shadowed(dir: string, term: nat, stamp: nat) {
    Contains(dir, StampPattern(Decimal(stamp))) || Decimal(stamp) <= Decimal(term)
  }

  lemma CurrentContainsStamp(dir: string, term: nat, stamp: nat)
    ensures Contains(CurrentKey(dir, term), StampPattern(Decimal(stamp))) <==> Shadowed(dir, term, stamp)
  {
    assert CurrentKey(dir, term) == (dir + "/manifest") + "_" + Decimal(term);
    UnderscoreContains(dir + "/manifest", Decimal(term), Decimal(stamp));
    PlainTailContains(dir, "/manifest", Decimal(stamp));
  }

  /** Terms below the stamp are never shadowed, as long as the directory name is not. */
  lemma SmallTermsAreClear(dir: string, term: nat, stamp: nat)
    requires term < stamp && !Contains(dir, StampPattern(Decimal(stamp)))
    ensures !Shadowed(dir, term, stamp)
  {
    if Decimal(stamp) <= Decimal(term) { DecimalPrefixIsSmaller(stamp, term); }
  }

  /* ---------- keys determine their parts ---------- */

  lemma KeyParts(dir: string, name: string)
    requires FreeOf(dir, {'/'}) && FreeOf(name, {'/'})
    ensures FirstSegment(ManifestPrefix(dir) + name) == dir
    ensures LastSegment(ManifestPrefix(dir) + name) == "manifest_" + name
  {
    assert ManifestPrefix(dir) + name == dir + "/" + ("manifest_" + name);
    FirstSegmentOf(dir, "manifest_" + name);
    SegmentOf(dir, name);
  }

  lemma CurrentKeyInjective(d1: string, t1: nat, d2: string, t2: nat)
    requires FreeOf(d1, {'/'}) && FreeOf(d2, {'/'}) && CurrentKey(d1, t1) == CurrentKey(d2, t2)
    ensures d1 == d2 && t1 == t2
  {
    DigitsAreFree(Decimal(t1));
    DigitsAreFree(Decimal(t2));
    KeyParts(d1, Decimal(t1));
    KeyParts(d2, Decimal(t2));
    SegmentOf(d1, Decimal(t1));
    SegmentOf(d2, Decimal(t2));
    DecimalInjective(t1, t2);
  }

  lemma BackupIsNotCurrent(d1: string, t1: nat, stamp: nat, d2: string, t2: nat)
    ensures BackupKey(d1, t1, stamp) != CurrentKey(d2, t2)
  {
    var name := Decimal(t1) + "_" + Decimal(stamp);
    DigitsAreFree(Decimal(t1));
    DigitsAreFree(Decimal(stamp));
    DigitsAreFree(Decimal(t2));
    assert BackupKey(d1, t1, stamp) == ManifestPrefix(d1) + name;
    SegmentOf(d1, name);
    SegmentOf(d2, Decimal(t2));
    assert name[|Decimal(t1)|] == '_';
    assert '_' in name;
  }

  lemma BackupKeyInjective(d1: string, t1: nat, s1: nat, d2: string, t2: nat, s2: nat)
    requires FreeOf(d1, {'/'}) && FreeOf(d2, {'/'}) && BackupKey(d1, t1, s1) == BackupKey(d2, t2, s2)
    ensures d1 == d2 && t1 == t2 && s1 == s2
  {
    EndsInStamp(d1, t1, s1, s1);
    EndsInStamp(d2, t2, s2, s1);
    var k := BackupKey(d1, t1, s1);
    var n := |k| - |Decimal(s1)| - 1;
    assert CurrentKey(d1, t1) == k[..n] == CurrentKey(d2, t2);
    CurrentKeyInjective(d1, t1, d2, t2);
  }
}
