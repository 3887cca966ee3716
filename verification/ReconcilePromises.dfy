/** The planner's promises about what it reports and what it saves. */
module ReconcilePromises {
  import opened Wrappers
  import opened Text
  import opened YamlDiff
  import opened YamlDiffProgram
  import opened Reconcile
  import opened ReconcileTheorems
  import opened ReconcilePaths
  import opened ReconcileReport

  /* ---------- the value of each mergeable field ---------- */

  lemma FlatValues(d: Deployment)
    ensures Lookup(DeploymentFields(d), "enable_tls") == BoolField(d.enableTls)
    ensures Lookup(DeploymentFields(d), "cluster_mode") == BoolField(d.clusterMode)
    ensures Lookup(DeploymentFields(d), "checkpointer_interval") == NumField(d.checkpointInterval)
  {
    DeploymentLookup(d, "enable_tls");
    DeploymentLookup(d, "cluster_mode");
    DeploymentLookup(d, "checkpointer_interval");
  }

  lemma DeepValues(p: Prometheus)
    ensures Lookup(PrometheusFields(p), "retention_time") == StrField(p.retentionTime)
    ensures Lookup(PrometheusFields(p), "retention_size") == StrField(p.retentionSize)
    ensures Lookup(PrometheusFields(p), "remote_write_urls") == UrlsField(p.remoteWriteUrls)
  {
    assert "retention_time"[10] != "retention_size"[10];
    PrometheusLookup(p, "retention_time");
    PrometheusLookup(p, "retention_size");
    PrometheusLookup(p, "remote_write_urls");
  }

  function FlatField(c: DeployConfig, k: string): Option<Yaml> { Lookup(DeploymentFields(c.deployment), k) }

  function FlatOf(d: Deployment, k: string): Option<Yaml> {
    if k == "enable_tls" then BoolField(d.enableTls)
    else if k == "cluster_mode" then BoolField(d.clusterMode)
    else NumField(d.checkpointInterval)
  }

  lemma FlatValue(c: DeployConfig, k: string)
    requires IsFlatKey(k)
    ensures FlatField(c, k) == FlatOf(c.deployment, k)
  {
    FlatValues(c.deployment);
  }

  function FlatChange(c: DeployConfig, d: DeployConfig, k: string): seq<Change> {
    if k == "enable_tls" then TlsChanges(c, d)
    else if k == "cluster_mode" then ModeChanges(c, d)
    else CheckpointChanges(c, d)
  }

  lemma FlatChangeIs(c: DeployConfig, d: DeployConfig, k: string)
    requires IsFlatKey(k)
    ensures FlatChange(c, d, k) == FieldChanges(["deployment", k], FlatField(c, k), FlatField(d, k))
  {
    FlatValue(c, k);
    FlatValue(d, k);
  }

  function DeepChange(c: DeployConfig, d: DeployConfig, k: string): seq<Change> {
    if PromOf(c).Some? && PromOf(d).Some? then FieldChanges(DeepPath(k), DeepField(c, k), DeepField(d, k)) else []
  }

  lemma PrometheusChangesAre(c: DeployConfig, d: DeployConfig)
    ensures PrometheusChanges(c, d) ==
              DeepChange(c, d, "retention_time") + DeepChange(c, d, "retention_size")
                + DeepChange(c, d, "remote_write_urls")
  {
    if PromOf(c).Some? && PromOf(d).Some? {
      DeepValues(PromOf(c).value);
      DeepValues(PromOf(d).value);
    }
  }

  lemma InFour<T>(a: seq<T>, b: seq<T>, c: seq<T>, d: seq<T>, x: T)
    ensures x in a + b + c + d <==> x in a || x in b || x in c || x in d
  {
  }

  lemma FlatChangeIn(c: DeployConfig, d: DeployConfig, x: Change)
    ensures x in TlsChanges(c, d) || x in CheckpointChanges(c, d) || x in ModeChanges(c, d)
       <==> exists k :: IsFlatKey(k) && x in FlatChange(c, d, k)
  {
    if x in TlsChanges(c, d) { assert IsFlatKey("enable_tls") && x in FlatChange(c, d, "enable_tls"); }
    if x in ModeChanges(c, d) { assert IsFlatKey("cluster_mode") && x in FlatChange(c, d, "cluster_mode"); }
    if x in CheckpointChanges(c, d) {
      assert IsFlatKey("checkpointer_interval") && x in FlatChange(c, d, "checkpointer_interval");
    }
  }

  lemma DeepChangeIn(c: DeployConfig, d: DeployConfig, x: Change)
    ensures x in PrometheusChanges(c, d) <==> exists k :: IsPrometheusKey(k) && x in DeepChange(c, d, k)
  {
    PrometheusChangesAre(c, d);
    var t, s := DeepChange(c, d, "retention_time"), DeepChange(c, d, "retention_size");
    var u := DeepChange(c, d, "remote_write_urls");
    InFour(t, s, u, [], x);
    assert t + s + u + [] == t + s + u;
    assert IsPrometheusKey("retention_time") && IsPrometheusKey("retention_size");
    assert IsPrometheusKey("remote_write_urls");
  }

  /** A change is announced by one of the six fields. */
  lemma ChangeIsOfField(c: DeployConfig, d: DeployConfig, x: Change)
    ensures x in FieldChangesOf(c, d)
       <==> || (exists k :: IsFlatKey(k) && x in FlatChange(c, d, k))
            || (exists k :: IsPrometheusKey(k) && x in DeepChange(c, d, k))
  {
    InFour(TlsChanges(c, d), CheckpointChanges(c, d), ModeChanges(c, d), PrometheusChanges(c, d), x);
    FlatChangeIn(c, d, x);
    DeepChangeIn(c, d, x);
  }

  /* ---------- nothing that differs is dropped ---------- */

  lemma DesiredForDiffAlike(current: DeployConfig, desired: DeployConfig)
    ensures Alike(Normalize(desired), Normalize(DesiredForDiff(current, desired)))
  {
    SamePlain(desired, DesiredForDiff(current, desired));
  }

  lemma TextIsIn(keep: Path -> bool, paths: seq<Path>, p: Path)
    requires p in paths && keep(p)
    ensures Render("", p) in RenderAll("", Filter(keep, paths))
  {
    FilterMembers(keep, paths);
    var kept := Filter(keep, paths);
    var i :| 0 <= i < |kept| && kept[i] == p;
    assert RenderAll("", kept)[i] == Render("", p);
  }

  lemma OtherDiffIsReported(current: DeployConfig, desired: DeployConfig, p: Path)
    requires HeadNamed(p) && !IsFieldPath(p)
    requires p in Diff(ConfigYaml(Normalize(current)), ConfigYaml(Normalize(desired)))
    ensures Render("", p) in (if IsStorePath(p) then StoreDiffs(current, desired) else Unsupported(current, desired))
  {
    DesiredForDiffAlike(current, desired);
    DiffKept(Normalize(current), Normalize(desired), Normalize(current), Normalize(DesiredForDiff(current, desired)));
    assert p in ConfigDiff(current, desired);
    SupportedTextIff(p);
    StoreTextIff(p);
    RenderIsJoinOf(p);
    if IsStorePath(p) {
      TextIsIn(StoreTest(), ConfigDiff(current, desired), p);
    } else {
      TextIsIn(UnsupportedTest(), ConfigDiff(current, desired), p);
      UniqueFacts(RenderAll("", Filter(UnsupportedTest(), ConfigDiff(current, desired))));
    }
  }

  lemma NormalizeKeepsFields(c: DeployConfig, k: string)
    requires IsFlatKey(k)
    ensures FlatField(Normalize(c), k) == FlatField(c, k)
  {
    DeploymentLookup(c.deployment, k);
    DeploymentLookup(Normalize(c).deployment, k);
  }

  /** The change that announces the desired value at a path. */
  function ChangeAt(current: DeployConfig, desired: DeployConfig, p: Path): Change {
    FieldChange(p, At(ConfigYaml(current), p), At(ConfigYaml(desired), p))
  }

  /** A mergeable field that differs is announced, or desired does not set it. */
  ghost predicate FieldReported(current: DeployConfig, desired: DeployConfig, p: Path) {
    At(ConfigYaml(desired), p) == None || ChangeAt(current, desired, p) in FieldChangesOf(current, desired)
  }

  lemma FlatDiffIsReported(current: DeployConfig, desired: DeployConfig, k: string)
    requires IsFlatKey(k) && ["deployment", k] in Diff(ConfigYaml(Normalize(current)), ConfigYaml(Normalize(desired)))
    ensures FieldReported(current, desired, ["deployment", k])
  {
    NormalizeKeepsFields(current, k);
    NormalizeKeepsFields(desired, k);
    FlatReported(Normalize(current), Normalize(desired), k);
    FlatAt(current, k);
    FlatAt(desired, k);
    FlatChangeIs(current, desired, k);
    ChangeIsOfField(current, desired, ChangeAt(current, desired, ["deployment", k]));
  }

  lemma NormalizeKeepsPrometheus(c: DeployConfig)
    ensures PromOf(Normalize(c)) == PromOf(c)
  {
  }

  lemma DeepDiffMeans(current: DeployConfig, desired: DeployConfig, k: string)
    requires IsPrometheusKey(k) && DeepPath(k) in Diff(ConfigYaml(Normalize(current)), ConfigYaml(Normalize(desired)))
    ensures PromOf(current).Some? && PromOf(desired).Some? && DeepField(current, k) != DeepField(desired, k)
  {
    NormalizeKeepsPrometheus(current);
    NormalizeKeepsPrometheus(desired);
    DeepReported(Normalize(current), Normalize(desired), k);
  }

  lemma DeepDiffIsReported(current: DeployConfig, desired: DeployConfig, k: string)
    requires IsPrometheusKey(k) && DeepPath(k) in Diff(ConfigYaml(Normalize(current)), ConfigYaml(Normalize(desired)))
    ensures FieldReported(current, desired, DeepPath(k))
  {
    DeepDiffMeans(current, desired, k);
    DeepAt(current, k);
    DeepAt(desired, k);
    var x := ChangeAt(current, desired, DeepPath(k));
    if DeepField(desired, k).Some? { assert x in DeepChange(current, desired, k); }
    ChangeIsOfField(current, desired, x);
  }

  lemma FieldDiffIsReported(current: DeployConfig, desired: DeployConfig, p: Path)
    requires IsFieldPath(p) && p in Diff(ConfigYaml(Normalize(current)), ConfigYaml(Normalize(desired)))
    ensures FieldReported(current, desired, p)
  {
    var k, deep := FieldPathCases(p);
    if deep {
      DeepDiffIsReported(current, desired, k);
    } else {
      FlatDiffIsReported(current, desired, k);
    }
  }

  /** Where the plan accounts for a differing path: as a change with its old and new value, as a
      storage difference, as an unsupported difference, or as a mergeable field that desired omits. */
  ghost predicate Accounted(current: DeployConfig, desired: DeployConfig, plan: ReconcilePlan, p: Path) {
    || ChangeAt(current, desired, p) in plan.changes
    || DiffText(Render("", p)) in plan.changes
    || Render("", p) in plan.unsupported
    || (IsFieldPath(p) && At(ConfigYaml(desired), p) == None)
  }

  lemma StoreTextIsChange(store: seq<string>, text: string)
    requires text in store
    ensures DiffText(text) in DiffChanges(store)
  {
    var i :| 0 <= i < |store| && store[i] == text;
    assert DiffChanges(store)[i] == DiffText(text);
  }

  lemma NormalizeKeepsNames(c: DeployConfig)
    requires PlainFieldNames(c)
    ensures PlainFieldNames(Normalize(c))
  {
  }

  lemma DesiredForDiffKeepsNames(current: DeployConfig, desired: DeployConfig)
    requires PlainFieldNames(desired)
    ensures PlainFieldNames(DesiredForDiff(current, desired))
  {
  }

  /** No differing path is dropped, whatever keys the maps below the structure fields hold. */
  lemma NothingIsDropped(current: DeployConfig, desired: DeployConfig, p: Path)
    requires BuildPlan(current, desired).Ok? && PlainFieldNames(current) && PlainFieldNames(desired)
    requires p in Diff(ConfigYaml(Normalize(current)), ConfigYaml(Normalize(desired)))
    ensures Accounted(current, desired, BuildPlan(current, desired).value, p)
  {
    var plan := BuildPlan(current, desired).value;
    assert plan.changes == Changes(current, desired) && plan.unsupported == Unsupported(current, desired);
    if IsFieldPath(p) {
      FieldDiffIsReported(current, desired, p);
    } else {
      NormalizeKeepsNames(current);
      NormalizeKeepsNames(desired);
      DiffIsHeadNamed(Normalize(current), Normalize(desired), p);
      OtherDiffIsReported(current, desired, p);
      if IsStorePath(p) { StoreTextIsChange(StoreDiffs(current, desired), Render("", p)); }
    }
  }

  /** The versions that stand for whatever is newest. */
  predicate IsFloating(version: Option<string>) {
    version == None || version == Some("latest") || version == Some("__ignored__")
  }

  /** A configuration without the fields that a diff should not see. */
  function Bare(c: DeployConfig): DeployConfig {
    var d := c.deployment;
    var log := match d.logService { case Some(service) => Some(Service(None, service.other)) case None => None };
    c.(deployment := d.(version := None, txService := Service(None, d.txService.other), logService := log))
  }

  /** The diff overlooks the two images and the choice among floating versions, and nothing else. */
  lemma NormalizeForgetsExactly(a: DeployConfig, b: DeployConfig)
    ensures Normalize(a) == Normalize(b) <==>
              && Bare(a) == Bare(b)
              && (a.deployment.version == b.deployment.version
                  || (IsFloating(a.deployment.version) && IsFloating(b.deployment.version)))
  {
    assert Bare(Normalize(a)) == Bare(a) && Bare(Normalize(b)) == Bare(b);
    if Bare(a) == Bare(b) && Normalize(a).deployment.version == Normalize(b).deployment.version {
      assert Normalize(a) == Bare(a).(deployment := Bare(a).deployment.(version := Normalize(a).deployment.version));
      assert Normalize(b) == Bare(b).(deployment := Bare(b).deployment.(version := Normalize(b).deployment.version));
    }
  }

  /* ---------- what is announced is what is saved ---------- */

  function SavedField(c: Option<Yaml>, d: Option<Yaml>): Option<Yaml> { if d.Some? then d else c }

  lemma MergedFlat(current: DeployConfig, desired: DeployConfig, k: string)
    requires IsFlatKey(k)
    ensures FlatField(Merged(current, desired), k) == SavedField(FlatField(current, k), FlatField(desired, k))
  {
    FlatValue(current, k);
    FlatValue(desired, k);
    FlatValue(Merged(current, desired), k);
  }

  lemma MergedDeep(current: DeployConfig, desired: DeployConfig, k: string)
    requires IsPrometheusKey(k)
    ensures DeepField(Merged(current, desired), k) ==
              if PromOf(current).Some? && PromOf(desired).Some?
              then SavedField(DeepField(current, k), DeepField(desired, k))
              else DeepField(current, k)
    ensures PromOf(Merged(current, desired)).Some? == PromOf(current).Some?
  {
    if PromOf(current).Some? && PromOf(desired).Some? {
      DeepValues(PromOf(current).value);
      DeepValues(PromOf(desired).value);
      DeepValues(PromOf(Merged(current, desired)).value);
    }
  }

  lemma MergedDiffIsOfFields(current: DeployConfig, desired: DeployConfig, p: Path)
    requires p in Diff(ConfigYaml(current), ConfigYaml(Merged(current, desired)))
    ensures IsFieldPath(p)
  {
    var merged := Merged(current, desired);
    assert Alike(merged, current) && Alike(current, current);
    DiffKept(current, merged, current, current);
    DiffEmptyIffEqual(ConfigYaml(current), ConfigYaml(current));
  }

  /** The announced field changes are exactly the paths at which the merged configuration differs from
      the current one, with the value it had and the desired value it has now. */
  lemma AnnouncedIsSaved(current: DeployConfig, desired: DeployConfig, p: Path)
    ensures var merged := Merged(current, desired);
            && (p in Diff(ConfigYaml(current), ConfigYaml(merged))
                <==> exists from, into :: FieldChange(p, from, into) in FieldChangesOf(current, desired))
            && forall from, into :: FieldChange(p, from, into) in FieldChangesOf(current, desired) ==>
                 from == At(ConfigYaml(current), p) && into == At(ConfigYaml(merged), p) == At(ConfigYaml(desired), p)
  {
    var merged := Merged(current, desired);
    forall from, into | FieldChange(p, from, into) in FieldChangesOf(current, desired)
      ensures from == At(ConfigYaml(current), p) && into == At(ConfigYaml(merged), p) == At(ConfigYaml(desired), p)
      ensures p in Diff(ConfigYaml(current), ConfigYaml(merged))
    {
      AnnouncedField(current, desired, p, from, into);
    }
    if p in Diff(ConfigYaml(current), ConfigYaml(merged)) {
      MergedDiffIsOfFields(current, desired, p);
      SavedIsAnnounced(current, desired, p);
    }
  }

  /** The change at a path is what the merged configuration holds there. */
  ghost predicate IsSaved(current: DeployConfig, desired: DeployConfig, p: Path, from: Option<Yaml>,
                          into: Option<Yaml>) {
    var merged := Merged(current, desired);
    && from == At(ConfigYaml(current), p) && into == At(ConfigYaml(merged), p) == At(ConfigYaml(desired), p)
    && p in Diff(ConfigYaml(current), ConfigYaml(merged))
  }

  lemma FlatIsSaved(current: DeployConfig, desired: DeployConfig, p: Path, from: Option<Yaml>, into: Option<Yaml>,
                    k: string)
    requires IsFlatKey(k) && FieldChange(p, from, into) in FlatChange(current, desired, k)
    ensures IsSaved(current, desired, p, from, into)
  {
    var merged := Merged(current, desired);
    FlatChangeIs(current, desired, k);
    MergedFlat(current, desired, k);
    FlatAt(current, k);
    FlatAt(desired, k);
    FlatAt(merged, k);
    FlatReported(current, merged, k);
  }

  lemma DeepIsSaved(current: DeployConfig, desired: DeployConfig, p: Path, from: Option<Yaml>, into: Option<Yaml>,
                    k: string)
    requires IsPrometheusKey(k) && FieldChange(p, from, into) in DeepChange(current, desired, k)
    ensures IsSaved(current, desired, p, from, into)
  {
    var merged := Merged(current, desired);
    MergedDeep(current, desired, k);
    DeepAt(current, k);
    DeepAt(desired, k);
    DeepAt(merged, k);
    DeepReported(current, merged, k);
  }

  lemma AnnouncedField(current: DeployConfig, desired: DeployConfig, p: Path, from: Option<Yaml>, into: Option<Yaml>)
    requires FieldChange(p, from, into) in FieldChangesOf(current, desired)
    ensures IsSaved(current, desired, p, from, into)
  {
    var x := FieldChange(p, from, into);
    ChangeIsOfField(current, desired, x);
    if k :| IsFlatKey(k) && x in FlatChange(current, desired, k) {
      FlatIsSaved(current, desired, p, from, into, k);
    } else {
      var k :| IsPrometheusKey(k) && x in DeepChange(current, desired, k);
      DeepIsSaved(current, desired, p, from, into, k);
    }
  }

  lemma SavedIsAnnounced(current: DeployConfig, desired: DeployConfig, p: Path)
    requires IsFieldPath(p) && p in Diff(ConfigYaml(current), ConfigYaml(Merged(current, desired)))
    ensures exists from, into :: FieldChange(p, from, into) in FieldChangesOf(current, desired)
  {
    var merged := Merged(current, desired);
    var k, deep := FieldPathCases(p);
    if deep {
      MergedDeep(current, desired, k);
      DeepReported(current, merged, k);
      var x := FieldChange(p, DeepField(current, k), DeepField(desired, k));
      assert x in DeepChange(current, desired, k);
      ChangeIsOfField(current, desired, x);
    } else {
      MergedFlat(current, desired, k);
      FlatReported(current, merged, k);
      FlatChangeIs(current, desired, k);
      var x := FieldChange(p, FlatField(current, k), FlatField(desired, k));
      assert x in FlatChange(current, desired, k);
      ChangeIsOfField(current, desired, x);
    }
  }

  /** No text is reported both as a storage difference and as unsupported, none twice as unsupported, and
      those that the planner can merge are reported as neither. */
  lemma ReportsAreApart(current: DeployConfig, desired: DeployConfig, text: string)
    ensures text in StoreDiffs(current, desired) ==> "deployment.storage_service" <= text
    ensures text in Unsupported(current, desired) ==> !("deployment.storage_service" <= text) && text !in SUPPORTED
    ensures Distinct(Unsupported(current, desired))
  {
    var paths := ConfigDiff(current, desired);
    if text in StoreDiffs(current, desired) { RenderedPath(StoreTest(), paths, text); }
    UniqueFacts(RenderAll("", Filter(UnsupportedTest(), paths)));
    if text in Unsupported(current, desired) { RenderedPath(UnsupportedTest(), paths, text); }
  }

  lemma RenderedPath(keep: Path -> bool, paths: seq<Path>, text: string)
    requires text in RenderAll("", Filter(keep, paths))
    ensures exists p :: p in paths && keep(p) && text == Render("", p)
  {
    FilterMembers(keep, paths);
    var kept := Filter(keep, paths);
    var i :| 0 <= i < |kept| && RenderAll("", kept)[i] == text;
    assert kept[i] in kept;
  }

  /** A plan is made for configurations of one cluster and carries its name; for two clusters both names
      are reported. */
  lemma OneClusterIsPlanned(current: DeployConfig, desired: DeployConfig)
    ensures var a, b := current.deployment.clusterName, desired.deployment.clusterName;
            if a == b then BuildPlan(current, desired).Ok? && BuildPlan(current, desired).value.cluster == b
            else BuildPlan(current, desired) == Err(ClusterNameMismatch(a, b))
  {
  }

  /* ---------- when a second plan is empty ---------- */

  /** `storage_service` is the only deployment field whose name begins with those letters. */
  ghost predicate OneStoreField(c: DeployConfig) {
    forall k: string :: "storage_service" <= k && k in c.deployment.other ==> k == "storage_service"
  }

  lemma StoreLookup(c: DeployConfig, k: string)
    requires OneStoreField(c) && "storage_service" <= k
    ensures FlatField(c, k) == if k == "storage_service" then c.deployment.storageService else None
  {
    assert "storage_service"[0] == 's' && k[0] == 's';
    assert "log_service"[0] == 'l' && "tx_service"[0] == 't' && "version"[0] == 'v' && "cluster_name"[0] == 'c';
    assert "monitor"[0] == 'm' && "checkpointer_interval"[0] == 'c' && "enable_tls"[0] == 'e';
    assert "cluster_mode"[0] == 'c';
    DeploymentLookup(c.deployment, k);
    PlainLookup(c.deployment, k);
  }

  lemma DeploymentDiffMembers(a: DeployConfig, b: DeployConfig, k: string, q: Path)
    ensures ["deployment", k] + q in Diff(ConfigYaml(a), ConfigYaml(b)) <==> q in Diff(FlatField(a, k), FlatField(b, k))
  {
    ConfigLookup(a, "deployment");
    ConfigLookup(b, "deployment");
    var p := ["deployment", k] + q;
    assert p[1..] == [k] + q && ([k] + q)[1..] == q;
    DiffMembers(ConfigFields(a), ConfigFields(b), p);
    DiffMembers(DeploymentFields(a.deployment), DeploymentFields(b.deployment), [k] + q);
  }

  lemma EqualFieldsReportNothing(a: DeployConfig, b: DeployConfig, k: string, q: Path)
    requires FlatField(a, k) == FlatField(b, k)
    ensures ["deployment", k] + q !in Diff(ConfigYaml(a), ConfigYaml(b))
  {
    DeploymentDiffMembers(a, b, k, q);
    DiffEmptyIffEqual(FlatField(a, k), FlatField(b, k));
  }

  lemma StoreKeyReported(a: DeployConfig, b: DeployConfig, k: string, q: Path)
    requires OneStoreField(a) && OneStoreField(b) && "storage_service" <= k
    requires a.deployment.storageService == b.deployment.storageService
    ensures ["deployment", k] + q !in Diff(ConfigYaml(a), ConfigYaml(b))
  {
    StoreLookup(a, k);
    StoreLookup(b, k);
    EqualFieldsReportNothing(a, b, k, q);
  }

  lemma PathParts(p: Path, first: string)
    requires |p| >= 2 && p[0] == first
    ensures p == [first, p[1]] + p[2..]
  {
  }

  lemma StorePathsReported(a: DeployConfig, b: DeployConfig)
    requires OneStoreField(a) && OneStoreField(b)
    requires a.deployment.storageService == b.deployment.storageService
    ensures forall p :: p in Diff(ConfigYaml(a), ConfigYaml(b)) ==> !IsStorePath(p)
  {
    forall p: Path | IsStorePath(p) ensures p !in Diff(ConfigYaml(a), ConfigYaml(b)) {
      StoreKeyReported(a, b, p[1], p[2..]);
      PathParts(p, "deployment");
    }
  }

  lemma StoreDifferenceReported(a: DeployConfig, b: DeployConfig) returns (p: Path)
    requires OneStoreField(a) && OneStoreField(b) && a.deployment.storageService != b.deployment.storageService
    ensures IsStorePath(p) && p in Diff(ConfigYaml(a), ConfigYaml(b))
  {
    StoreLookup(a, "storage_service");
    StoreLookup(b, "storage_service");
    var x, y := a.deployment.storageService, b.deployment.storageService;
    DiffEmptyIffEqual(x, y);
    var q := Diff(x, y)[0];
    p := ["deployment", "storage_service"] + q;
    DeploymentDiffMembers(a, b, "storage_service", q);
  }

  lemma FilteredEmptyIff(keep: Path -> bool, paths: seq<Path>)
    ensures RenderAll("", Filter(keep, paths)) == [] <==> forall p :: p in paths ==> !keep(p)
  {
    FilterMembers(keep, paths);
    HasMember(Filter(keep, paths));
    assert |RenderAll("", Filter(keep, paths))| == |Filter(keep, paths)|;
  }

  lemma ConfigDiffIsHeadNamed(current: DeployConfig, desired: DeployConfig)
    requires PlainFieldNames(current) && PlainFieldNames(desired)
    ensures forall p :: p in ConfigDiff(current, desired) ==> HeadNamed(p)
  {
    DesiredForDiffKeepsNames(current, desired);
    NormalizeKeepsNames(current);
    NormalizeKeepsNames(DesiredForDiff(current, desired));
    forall p | p in ConfigDiff(current, desired) ensures HeadNamed(p) {
      DiffIsHeadNamed(Normalize(current), Normalize(DesiredForDiff(current, desired)), p);
    }
  }

  /** The storage report is empty exactly when the storage services agree. */
  lemma StoreDiffsEmptyIff(current: DeployConfig, desired: DeployConfig)
    requires PlainFieldNames(current) && PlainFieldNames(desired) && OneStoreField(current) && OneStoreField(desired)
    ensures StoreDiffs(current, desired) == []
       <==> current.deployment.storageService == desired.deployment.storageService
  {
    var a, b := Normalize(current), Normalize(DesiredForDiff(current, desired));
    FilteredEmptyIff(StoreTest(), ConfigDiff(current, desired));
    ConfigDiffIsHeadNamed(current, desired);
    if current.deployment.storageService != desired.deployment.storageService {
      var p := StoreDifferenceReported(a, b);
      StoreTextIff(p);
    } else {
      StorePathsReported(a, b);
      forall p | p in ConfigDiff(current, desired) ensures !StoreTest()(p) {
        StoreTextIff(p);
      }
    }
  }

  /** Planning again from the merged configuration gives an empty plan exactly when the storage
      services agreed to begin with: a storage difference is announced but never merged. */
  lemma ReplanIsEmptyIff(current: DeployConfig, desired: DeployConfig)
    requires BuildPlan(current, desired).Ok?
    requires PlainFieldNames(current) && PlainFieldNames(desired) && OneStoreField(current) && OneStoreField(desired)
    ensures var again := BuildPlan(BuildPlan(current, desired).value.merged, desired);
            && again.Ok?
            && (again.value.IsEmpty() <==> current.deployment.storageService == desired.deployment.storageService)
  {
    ReplanConverges(current, desired);
    StoreDiffsEmptyIff(current, desired);
  }

  /* ---------- the planned actions ---------- */

  lemma AddIfFacts(actions: seq<Action>, condition: bool, action: Action)
    requires Distinct(actions)
    ensures Distinct(AddIf(actions, condition, action))
    ensures forall a :: a in AddIf(actions, condition, action) <==> a in actions || (condition && a == action)
  {
  }

  lemma AddedActions(actions: seq<Action>, storeRestart: bool) returns (list: seq<Action>)
    requires Distinct(actions)
    ensures list
         == AddIf(AddIf(actions, storeRestart, RegenerateEloqKvNodeConfig), storeRestart, RestartTxWithUpdatedConfig)
    ensures Distinct(list)
    ensures forall a :: a in list <==>
                     || a in actions
                     || (storeRestart && (a == RegenerateEloqKvNodeConfig || a == RestartTxWithUpdatedConfig))
  {
    AddIfFacts(actions, storeRestart, RegenerateEloqKvNodeConfig);
    list := AddIf(actions, storeRestart, RegenerateEloqKvNodeConfig);
    AddIfFacts(list, storeRestart, RestartTxWithUpdatedConfig);
    list := AddIf(list, storeRestart, RestartTxWithUpdatedConfig);
  }

  lemma ActionsBeforeVerify(changed: bool, storeRestart: bool, txUpdated: bool, monitorRestart: bool)
    returns (list: seq<Action>)
    ensures Actions(changed, storeRestart, txUpdated, monitorRestart) == AddIf(list, list != [], VerifyClusterStatus)
    ensures Distinct(list) && VerifyClusterStatus !in list
    ensures SaveClusterIndex in list <==> changed
    ensures RegenerateEloqKvNodeConfig in list <==> storeRestart
    ensures RestartTxWithUpdatedConfig in list <==> storeRestart || txUpdated
    ensures RestartMonitor in list <==> monitorRestart
  {
    AddIfFacts([], changed, SaveClusterIndex);
    list := AddIf([], changed, SaveClusterIndex);
    list := AddedActions(list, storeRestart);
    AddIfFacts(list, txUpdated, RestartTxWithUpdatedConfig);
    list := AddIf(list, txUpdated, RestartTxWithUpdatedConfig);
    AddIfFacts(list, monitorRestart, RestartMonitor);
    list := AddIf(list, monitorRestart, RestartMonitor);
  }

  lemma ActionsAreExact(changed: bool, storeRestart: bool, txUpdated: bool, monitorRestart: bool)
    ensures var list := Actions(changed, storeRestart, txUpdated, monitorRestart);
            && Distinct(list)
            && (SaveClusterIndex in list <==> changed)
            && (RegenerateEloqKvNodeConfig in list <==> storeRestart)
            && (RestartTxWithUpdatedConfig in list <==> storeRestart || txUpdated)
            && (RestartMonitor in list <==> monitorRestart)
            && (list != [] ==> list[|list| - 1] == VerifyClusterStatus)
            && (list == [] <==> !changed && !storeRestart && !txUpdated && !monitorRestart)
  {
    var list := ActionsBeforeVerify(changed, storeRestart, txUpdated, monitorRestart);
    AddIfFacts(list, list != [], VerifyClusterStatus);
    ActionsEmptyIff(changed, storeRestart, txUpdated, monitorRestart);
  }

  /** Desired sets a field to another value than current has. */
  predicate Sets<T(==)>(current: Option<T>, desired: Option<T>) { desired.Some? && desired != current }

  /** A storage difference or another TLS setting needs new node files. */
  ghost predicate NeedsNewNodeConfig(current: DeployConfig, desired: DeployConfig) {
    Sets(current.deployment.enableTls, desired.deployment.enableTls) || StoreDiffs(current, desired) != []
  }

  ghost predicate SetsTxField(current: DeployConfig, desired: DeployConfig) {
    || Sets(current.deployment.checkpointInterval, desired.deployment.checkpointInterval)
    || Sets(current.deployment.clusterMode, desired.deployment.clusterMode)
  }

  /** Both configurations have a Prometheus section and one of its three fields is set anew. */
  ghost predicate SetsPrometheus(current: DeployConfig, desired: DeployConfig) {
    && PromOf(current).Some? && PromOf(desired).Some?
    && var c, d := PromOf(current).value, PromOf(desired).value;
       || Sets(c.retentionTime, d.retentionTime) || Sets(c.retentionSize, d.retentionSize)
       || Sets(c.remoteWriteUrls, d.remoteWriteUrls)
  }

  lemma ScalarCauses(current: DeployConfig, desired: DeployConfig)
    ensures TlsChanges(current, desired) != [] <==> Sets(current.deployment.enableTls, desired.deployment.enableTls)
    ensures CheckpointChanges(current, desired) + ModeChanges(current, desired) != [] <==> SetsTxField(current, desired)
    ensures TxFieldUpdates(current, desired) != [] <==> SetsTxField(current, desired)
  {
  }

  lemma PrometheusCause(current: DeployConfig, desired: DeployConfig)
    ensures PrometheusChanges(current, desired) != [] <==> SetsPrometheus(current, desired)
  {
    if PromOf(current).Some? && PromOf(desired).Some? {
      var c, d := PromOf(current).value.remoteWriteUrls, PromOf(desired).value.remoteWriteUrls;
      if UrlsField(c) == UrlsField(d) { FieldsInjective(c, d); }
    }
  }

  lemma PlanActions(current: DeployConfig, desired: DeployConfig)
    requires BuildPlan(current, desired).Ok?
    ensures BuildPlan(current, desired).value.actions
         == Actions(Changes(current, desired) != [],
                    TlsChanges(current, desired) != [] || StoreDiffs(current, desired) != [],
                    TxFieldUpdates(current, desired) != [], PrometheusChanges(current, desired) != [])
    ensures Changes(current, desired) != [] <==>
              || TlsChanges(current, desired) != []
              || CheckpointChanges(current, desired) + ModeChanges(current, desired) != []
              || PrometheusChanges(current, desired) != [] || StoreDiffs(current, desired) != []
  {
    assert |Changes(current, desired)| == |TlsChanges(current, desired)| + |CheckpointChanges(current, desired)|
      + |ModeChanges(current, desired)| + |PrometheusChanges(current, desired)| + |StoreDiffs(current, desired)|;
  }

  lemma SentFields(current: DeployConfig, desired: DeployConfig)
    ensures var was, now := current.deployment, Merged(current, desired).deployment;
            && (CheckpointChanges(current, desired) == [] <==> now.checkpointInterval == was.checkpointInterval)
            && (ModeChanges(current, desired) == [] <==> now.clusterMode == was.clusterMode)
            && (now.checkpointInterval != was.checkpointInterval ==>
                  now.checkpointInterval.Some? && now.checkpointInterval == desired.deployment.checkpointInterval)
            && (now.clusterMode != was.clusterMode ==>
                  now.clusterMode.Some? && now.clusterMode == desired.deployment.clusterMode)
  {
  }

  function IntervalText(interval: Option<nat>): string {
    match interval { case Some(n) => "checkpointer_interval:" + Decimal(n) case None => "" }
  }

  function ModeText(mode: Option<bool>): string {
    match mode { case Some(on) => if on then "cluster_mode:true" else "cluster_mode:false" case None => "" }
  }

  /** The field updates that a plan sends out: for each of the two fields whose value the merged
      configuration changes, the interval first, its key, a colon and the value that is saved. */
  lemma SentIsSaved(current: DeployConfig, desired: DeployConfig)
    requires BuildPlan(current, desired).Ok?
    ensures var plan := BuildPlan(current, desired).value;
            var was, now := current.deployment, plan.merged.deployment;
            && (now.checkpointInterval != was.checkpointInterval ==> now.checkpointInterval.Some?)
            && (now.clusterMode != was.clusterMode ==> now.clusterMode.Some?)
            && plan.txFieldUpdates ==
                 (if now.checkpointInterval == was.checkpointInterval then []
                  else [IntervalText(now.checkpointInterval)])
                 + (if now.clusterMode == was.clusterMode then [] else [ModeText(now.clusterMode)])
  {
    SentFields(current, desired);
    if desired.deployment.clusterMode.Some? { ModeIsWritten(desired.deployment.clusterMode); }
  }

  lemma ModeIsWritten(mode: Option<bool>)
    requires mode.Some?
    ensures "cluster_mode:" + (if mode.value then "true" else "false") == ModeText(mode)
  {
    assert "cluster_mode:" + "true" == "cluster_mode:true" && "cluster_mode:" + "false" == "cluster_mode:false";
  }

  /* ---------- the order of changes and actions ---------- */

  /** Where a field stands among the six that are announced; texts come behind them. */
  function Place(x: Change): nat {
    match x
    case DiffText(_) => 6
    case FieldChange(p, _, _) =>
      if p == ["deployment", "enable_tls"] then 0
      else if p == ["deployment", "checkpointer_interval"] then 1
      else if p == ["deployment", "cluster_mode"] then 2
      else if p == ["deployment", "monitor", "prometheus", "retention_time"] then 3
      else if p == ["deployment", "monitor", "prometheus", "retention_size"] then 4
      else 5
  }

  /** At most one change for each place from `low` on and below `high`, in order. */
  ghost predicate InOrder(xs: seq<Change>, low: nat, high: nat) {
    && (forall i :: 0 <= i < |xs| ==> low <= Place(xs[i]) < high)
    && forall i, j :: 0 <= i < j < |xs| ==> Place(xs[i]) < Place(xs[j])
  }

  lemma JoinedInOrder(a: seq<Change>, b: seq<Change>, low: nat, mid: nat, high: nat)
    requires InOrder(a, low, mid) && InOrder(b, mid, high) && low <= mid <= high
    ensures InOrder(a + b, low, high)
  {
  }

  lemma FlatPlaces(from: Option<Yaml>, into: Option<Yaml>)
    ensures Place(FieldChange(["deployment", "enable_tls"], from, into)) == 0
    ensures Place(FieldChange(["deployment", "checkpointer_interval"], from, into)) == 1
    ensures Place(FieldChange(["deployment", "cluster_mode"], from, into)) == 2
  {
    assert ["deployment", "checkpointer_interval"][1][0] == 'c' && ["deployment", "enable_tls"][1][0] == 'e';
    assert ["deployment", "cluster_mode"][1][1] == 'l' && ["deployment", "checkpointer_interval"][1][1] == 'h';
  }

  lemma DeepPlaces(from: Option<Yaml>, into: Option<Yaml>)
    ensures Place(FieldChange(DeepPath("retention_time"), from, into)) == 3
    ensures Place(FieldChange(DeepPath("retention_size"), from, into)) == 4
    ensures Place(FieldChange(DeepPath("remote_write_urls"), from, into)) == 5
  {
    assert DeepPath("retention_time")[3][10] == 't' && DeepPath("retention_size")[3][10] == 's';
    assert DeepPath("remote_write_urls")[3][2] == 'm' && DeepPath("retention_time")[3][2] == 't';
    assert DeepPath("retention_size")[3][2] == 't';
  }

  lemma OneInOrder(path: Path, from: Option<Yaml>, into: Option<Yaml>, place: nat)
    requires Place(FieldChange(path, from, into)) == place
    ensures InOrder(FieldChanges(path, from, into), place, place + 1)
  {
  }

  lemma FlatInOrder(current: DeployConfig, desired: DeployConfig)
    ensures InOrder(TlsChanges(current, desired), 0, 1) && InOrder(CheckpointChanges(current, desired), 1, 2)
    ensures InOrder(ModeChanges(current, desired), 2, 3)
  {
    var c, d := current.deployment, desired.deployment;
    FlatPlaces(BoolField(c.enableTls), BoolField(d.enableTls));
    FlatPlaces(NumField(c.checkpointInterval), NumField(d.checkpointInterval));
    FlatPlaces(BoolField(c.clusterMode), BoolField(d.clusterMode));
  }

  lemma DeepInOrder(current: DeployConfig, desired: DeployConfig)
    ensures InOrder(PrometheusChanges(current, desired), 3, 6)
  {
    if PromOf(current).Some? && PromOf(desired).Some? {
      var c, d := PromOf(current).value, PromOf(desired).value;
      DeepPlaces(StrField(c.retentionTime), StrField(d.retentionTime));
      DeepPlaces(StrField(c.retentionSize), StrField(d.retentionSize));
      DeepPlaces(UrlsField(c.remoteWriteUrls), UrlsField(d.remoteWriteUrls));
      var t := FieldChanges(DeepPath("retention_time"), StrField(c.retentionTime), StrField(d.retentionTime));
      var z := FieldChanges(DeepPath("retention_size"), StrField(c.retentionSize), StrField(d.retentionSize));
      var u := FieldChanges(DeepPath("remote_write_urls"), UrlsField(c.remoteWriteUrls), UrlsField(d.remoteWriteUrls));
      OneInOrder(DeepPath("retention_time"), StrField(c.retentionTime), StrField(d.retentionTime), 3);
      OneInOrder(DeepPath("retention_size"), StrField(c.retentionSize), StrField(d.retentionSize), 4);
      OneInOrder(DeepPath("remote_write_urls"), UrlsField(c.remoteWriteUrls), UrlsField(d.remoteWriteUrls), 5);
      JoinedInOrder(t, z, 3, 4, 5);
      JoinedInOrder(t + z, u, 3, 5, 6);
    }
  }

  lemma FieldsInOrder(current: DeployConfig, desired: DeployConfig)
    ensures InOrder(FieldChangesOf(current, desired), 0, 6)
  {
    var tls, interval := TlsChanges(current, desired), CheckpointChanges(current, desired);
    var mode, prom := ModeChanges(current, desired), PrometheusChanges(current, desired);
    FlatInOrder(current, desired);
    DeepInOrder(current, desired);
    JoinedInOrder(tls, interval, 0, 1, 2);
    JoinedInOrder(tls + interval, mode, 0, 2, 3);
    JoinedInOrder(tls + interval + mode, prom, 0, 3, 6);
  }

  /** The first `n` are changes of fields, each at most once and in order; behind them is a text each. */
  ghost predicate FieldsThenTexts(changes: seq<Change>, n: nat, texts: seq<string>) {
    && |changes| == n + |texts| && InOrder(changes[..n], 0, 6)
    && forall i :: n <= i < |changes| ==> changes[i] == DiffText(texts[i - n])
  }

  lemma TextsBehind(fields: seq<Change>, texts: seq<string>)
    requires InOrder(fields, 0, 6)
    ensures FieldsThenTexts(fields + DiffChanges(texts), |fields|, texts)
  {
    assert (fields + DiffChanges(texts))[..|fields|] == fields;
  }

  /** The changes of a plan: those of the six fields, each at most once and in this order, and then a text
      for each storage difference. */
  lemma ChangesAreInOrder(current: DeployConfig, desired: DeployConfig)
    requires BuildPlan(current, desired).Ok?
    ensures exists n: nat :: FieldsThenTexts(BuildPlan(current, desired).value.changes, n, StoreDiffs(current, desired))
  {
    FieldsInOrder(current, desired);
    TextsBehind(FieldChangesOf(current, desired), StoreDiffs(current, desired));
  }

  function Rank(a: Action): nat {
    match a
    case SaveClusterIndex => 0
    case RegenerateEloqKvNodeConfig => 1
    case RestartTxWithUpdatedConfig => 2
    case RestartMonitor => 3
    case VerifyClusterStatus => 4
  }

  /** The actions of a plan come in this order: the index is saved before anything is restarted, and new
      node configurations are written before the nodes that read them are. */
  lemma ActionsAreInOrder(current: DeployConfig, desired: DeployConfig)
    requires BuildPlan(current, desired).Ok?
    ensures var list := BuildPlan(current, desired).value.actions;
            forall i, j :: 0 <= i < j < |list| ==> Rank(list[i]) < Rank(list[j])
  {
    PlanActions(current, desired);
    AnyActionsInOrder(Changes(current, desired) != [],
                      TlsChanges(current, desired) != [] || StoreDiffs(current, desired) != [],
                      TxFieldUpdates(current, desired) != [], PrometheusChanges(current, desired) != []);
  }

  lemma AnyActionsInOrder(changed: bool, storeRestart: bool, txUpdated: bool, monitorRestart: bool)
    ensures var list := Actions(changed, storeRestart, txUpdated, monitorRestart);
            forall i, j :: 0 <= i < j < |list| ==> Rank(list[i]) < Rank(list[j])
  {
  }

  /** The actions of a plan, each at most once, and what in the two configurations causes each of them.
      A plan with any action ends by verifying the cluster. */
  lemma PlannedActionsAreExact(current: DeployConfig, desired: DeployConfig)
    requires BuildPlan(current, desired).Ok?
    ensures var list := BuildPlan(current, desired).value.actions;
            && Distinct(list)
            && (RegenerateEloqKvNodeConfig in list <==> NeedsNewNodeConfig(current, desired))
            && (RestartTxWithUpdatedConfig in list <==>
                  NeedsNewNodeConfig(current, desired) || SetsTxField(current, desired))
            && (RestartMonitor in list <==> SetsPrometheus(current, desired))
            && (SaveClusterIndex in list <==>
                || NeedsNewNodeConfig(current, desired) || SetsTxField(current, desired)
                || SetsPrometheus(current, desired))
            && (list != [] <==> SaveClusterIndex in list)
            && (list != [] ==> list[|list| - 1] == VerifyClusterStatus)
  {
    PlanActions(current, desired);
    ScalarCauses(current, desired);
    PrometheusCause(current, desired);
    ActionsAreExact(Changes(current, desired) != [],
                    TlsChanges(current, desired) != [] || StoreDiffs(current, desired) != [],
                    TxFieldUpdates(current, desired) != [], PrometheusChanges(current, desired) != []);
  }
}
