/** What a plan promises: it converges, it announces exactly what it saves, and it drops nothing. */
module ReconcileTheorems {
  import opened Wrappers
  import opened YamlDiff
  import opened YamlDiffProgram
  import opened DiffFilter
  import opened Reconcile

  /* ---------- reading the serialised fields back ---------- */

  lemma SetFieldLookup(fields: map<string, Yaml>, key: string, value: Option<Yaml>, k: string)
    ensures Lookup(SetField(fields, key, value), k) == if k == key then value else Lookup(fields, k)
  {
  }

  lemma PrometheusLookup(p: Prometheus, k: string)
    ensures Lookup(PrometheusFields(p), k) ==
              if k == "remote_write_urls" then UrlsField(p.remoteWriteUrls)
              else if k == "retention_size" then StrField(p.retentionSize)
              else if k == "retention_time" then StrField(p.retentionTime)
              else Lookup(p.other, k)
  {
    var f1 := SetField(p.other, "retention_time", StrField(p.retentionTime));
    var f2 := SetField(f1, "retention_size", StrField(p.retentionSize));
    SetFieldLookup(p.other, "retention_time", StrField(p.retentionTime), k);
    SetFieldLookup(f1, "retention_size", StrField(p.retentionSize), k);
    SetFieldLookup(f2, "remote_write_urls", UrlsField(p.remoteWriteUrls), k);
  }

  lemma MonitorLookup(m: Monitor, k: string)
    ensures Lookup(MonitorFields(m), k)
         == if k == "prometheus" then PrometheusYaml(m.prometheus) else Lookup(m.other, k)
  {
    SetFieldLookup(m.other, "prometheus", PrometheusYaml(m.prometheus), k);
  }

  /** The fields before the three scalar ones and the monitor. */
  function PlainFields(d: Deployment): map<string, Yaml> {
    SetField(SetField(SetField(SetField(SetField(d.other,
      "cluster_name", Some(Str(d.clusterName))),
      "version", StrField(d.version)),
      "tx_service", Some(TxYaml(d.txService))),
      "log_service", LogYaml(d.logService)),
      "storage_service", d.storageService)
  }

  lemma DeploymentLookup(d: Deployment, k: string)
    ensures Lookup(DeploymentFields(d), k) ==
              if k == "cluster_mode" then BoolField(d.clusterMode)
              else if k == "enable_tls" then BoolField(d.enableTls)
              else if k == "checkpointer_interval" then NumField(d.checkpointInterval)
              else if k == "monitor" then MonitorYaml(d.monitor)
              else Lookup(PlainFields(d), k)
  {
    var f0 := PlainFields(d);
    var f1 := SetField(f0, "monitor", MonitorYaml(d.monitor));
    var f2 := SetField(f1, "checkpointer_interval", NumField(d.checkpointInterval));
    var f3 := SetField(f2, "enable_tls", BoolField(d.enableTls));
    SetFieldLookup(f0, "monitor", MonitorYaml(d.monitor), k);
    SetFieldLookup(f1, "checkpointer_interval", NumField(d.checkpointInterval), k);
    SetFieldLookup(f2, "enable_tls", BoolField(d.enableTls), k);
    SetFieldLookup(f3, "cluster_mode", BoolField(d.clusterMode), k);
    assert DeploymentFields(d) == SetField(f3, "cluster_mode", BoolField(d.clusterMode));
  }

  lemma PlainLookup(d: Deployment, k: string)
    ensures Lookup(PlainFields(d), k) ==
              if k == "storage_service" then d.storageService
              else if k == "log_service" then LogYaml(d.logService)
              else if k == "tx_service" then Some(TxYaml(d.txService))
              else if k == "version" then StrField(d.version)
              else if k == "cluster_name" then Some(Str(d.clusterName))
              else Lookup(d.other, k)
  {
    var f1 := SetField(d.other, "cluster_name", Some(Str(d.clusterName)));
    var f2 := SetField(f1, "version", StrField(d.version));
    var f3 := SetField(f2, "tx_service", Some(TxYaml(d.txService)));
    var f4 := SetField(f3, "log_service", LogYaml(d.logService));
    SetFieldLookup(d.other, "cluster_name", Some(Str(d.clusterName)), k);
    SetFieldLookup(f1, "version", StrField(d.version), k);
    SetFieldLookup(f2, "tx_service", Some(TxYaml(d.txService)), k);
    SetFieldLookup(f3, "log_service", LogYaml(d.logService), k);
    SetFieldLookup(f4, "storage_service", d.storageService, k);
    assert PlainFields(d) == SetField(f4, "storage_service", d.storageService);
  }

  lemma ConfigLookup(c: DeployConfig, k: string)
    ensures Lookup(ConfigFields(c), k) ==
              if k == "deployment" then Some(Mapping(DeploymentFields(c.deployment))) else Lookup(c.other, k)
  {
    SetFieldLookup(c.other, "deployment", Some(Mapping(DeploymentFields(c.deployment))), k);
  }

  /* ---------- planning again from the merged configuration ---------- */

  lemma RenderTwo(a: string, b: string)
    requires a != ""
    ensures Render("", [a, b]) == a + "." + b
  {
    assert [a, b][1..] == [b] && [b][1..] == [];
    assert Render("", [a, b]) == Render(a, [b]) == Render(a + "." + b, []);
  }

  lemma RenderFour(a: string, b: string, c: string, d: string)
    requires a != ""
    ensures Render("", [a, b, c, d]) == a + "." + b + "." + c + "." + d
  {
    assert [a, b, c, d][1..] == [b, c, d] && [b, c, d][1..] == [c, d] && [c, d][1..] == [d] && [d][1..] == [];
    assert Render("", [a, b, c, d]) == Render(a, [b, c, d]) == Render(a + "." + b, [c, d]);
    assert Render(a + "." + b, [c, d]) == Render(a + "." + b + "." + c, [d]);
    assert Render(a + "." + b + "." + c, [d]) == Render(a + "." + b + "." + c + "." + d, []);
  }

  lemma RenderPrometheus(field: string)
    ensures Render("", ["deployment", "monitor", "prometheus", field]) == "deployment.monitor.prometheus." + field
  {
    RenderFour("deployment", "monitor", "prometheus", field);
    assert "deployment" + "." + "monitor" + "." + "prometheus" + "." == "deployment.monitor.prometheus.";
  }

  /** The supported paths as key sequences, in the order of the planner's list. */
  const SUPPORTED_PATHS: seq<Path> := [
    ["deployment", "checkpointer_interval"],
    ["deployment", "cluster_mode"],
    ["deployment", "monitor", "prometheus", "retention_time"],
    ["deployment", "monitor", "prometheus", "retention_size"],
    ["deployment", "monitor", "prometheus", "remote_write_urls"]
  ]

  lemma SupportedRender0() ensures Render("", SUPPORTED_PATHS[0]) == SUPPORTED[0] {
    RenderTwo("deployment", "checkpointer_interval");
  }

  lemma SupportedRender1() ensures Render("", SUPPORTED_PATHS[1]) == SUPPORTED[1] {
    RenderTwo("deployment", "cluster_mode");
  }

  lemma SupportedRender2() ensures Render("", SUPPORTED_PATHS[2]) == SUPPORTED[2] {
    RenderPrometheus("retention_time");
  }

  lemma SupportedRender3() ensures Render("", SUPPORTED_PATHS[3]) == SUPPORTED[3] {
    RenderPrometheus("retention_size");
  }

  lemma SupportedRender4() ensures Render("", SUPPORTED_PATHS[4]) == SUPPORTED[4] {
    RenderPrometheus("remote_write_urls");
  }

  /** The two lists name the same fields. */
  lemma SupportedRender(i: nat)
    requires i < 5
    ensures |SUPPORTED| == |SUPPORTED_PATHS| == 5 && Render("", SUPPORTED_PATHS[i]) == SUPPORTED[i]
  {
    if i == 0 { SupportedRender0(); }
    if i == 1 { SupportedRender1(); }
    if i == 2 { SupportedRender2(); }
    if i == 3 { SupportedRender3(); }
    if i == 4 { SupportedRender4(); }
  }

  lemma SupportedIsNotStore(i: nat)
    requires i < |SUPPORTED|
    ensures |SUPPORTED[i]| > 11 && SUPPORTED[i][11] != STORE_PREFIX[11]
  {
  }

  lemma TestsSkip(i: nat)
    requires i < 5
    ensures !IsStoreText(Render("", SUPPORTED_PATHS[i])) && !IsUnsupportedText(Render("", SUPPORTED_PATHS[i]))
  {
    SupportedRender(i);
    SupportedIsNotStore(i);
    assert SUPPORTED[i] in SUPPORTED;
  }

  /** A test that looks at none of the paths the planner merges. */
  ghost predicate SkipsSupported(keep: Path -> bool) {
    forall i :: 0 <= i < |SUPPORTED_PATHS| ==> !keep(SUPPORTED_PATHS[i])
  }

  lemma TestsSkipSupported()
    ensures SkipsSupported(StoreTest()) && SkipsSupported(UnsupportedTest())
  {
    forall i | 0 <= i < |SUPPORTED_PATHS|
      ensures !StoreTest()(SUPPORTED_PATHS[i]) && !UnsupportedTest()(SUPPORTED_PATHS[i])
    {
      TestsSkip(i);
    }
  }

  /* ---------- the filtered diff does not see what was merged ---------- */

  ghost predicate BothMappings(x: Option<Yaml>, y: Option<Yaml>) {
    x.Some? && x.value.Mapping? && y.Some? && y.value.Mapping?
  }

  /** A test that rejects the key alone sees nothing at a key whose values are not both mappings. */
  lemma LeafIsSkipped(keep: Path -> bool, c: map<string, Yaml>, d: map<string, Yaml>, k: string)
    requires !BothMappings(Lookup(c, k), Lookup(d, k)) && !keep([k])
    ensures ChildDiff(keep, c, d, k) == []
  {
    assert [k] + [] == [k];
    LeafDiff(Under(keep, k), Lookup(c, k), Lookup(d, k));
  }

  lemma EqualIsSkipped(keep: Path -> bool, c: map<string, Yaml>, d: map<string, Yaml>, k: string)
    requires Lookup(c, k) == Lookup(d, k)
    ensures ChildDiff(keep, c, d, k) == []
  {
    DiffEmptyIffEqual(Lookup(c, k), Lookup(d, k));
  }

  predicate IsPrometheusKey(k: string) { k == "remote_write_urls" || k == "retention_size" || k == "retention_time" }

  predicate IsScalarKey(k: string) { k == "cluster_mode" || k == "checkpointer_interval" }

  lemma PrometheusLeaves(c: Prometheus, d: Prometheus, k: string)
    requires IsPrometheusKey(k)
    ensures !BothMappings(Lookup(PrometheusFields(c), k), Lookup(PrometheusFields(d), k))
  {
    PrometheusLookup(c, k);
    PrometheusLookup(d, k);
  }

  lemma SamePrometheusDiff(keep: Path -> bool, c: Prometheus, d: Prometheus, c': Prometheus, d': Prometheus)
    requires c.other == c'.other && d.other == d'.other
    requires forall k :: IsPrometheusKey(k) ==> !keep([k])
    ensures Filter(keep, Diff(PrometheusYaml(Some(c)), PrometheusYaml(Some(d))))
         == Filter(keep, Diff(PrometheusYaml(Some(c')), PrometheusYaml(Some(d'))))
  {
    var f, g, f', g' := PrometheusFields(c), PrometheusFields(d), PrometheusFields(c'), PrometheusFields(d');
    forall k: string ensures ChildDiff(keep, f, g, k) == ChildDiff(keep, f', g', k) {
      if IsPrometheusKey(k) {
        PrometheusLeaves(c, d, k);
        PrometheusLeaves(c', d', k);
        LeafIsSkipped(keep, f, g, k);
        LeafIsSkipped(keep, f', g', k);
      } else {
        PrometheusLookup(c, k);
        PrometheusLookup(d, k);
        PrometheusLookup(c', k);
        PrometheusLookup(d', k);
      }
    }
    SameFilteredDiff(keep, f, g, f', g');
  }

  lemma SameMonitorDiff(keep: Path -> bool, c: Monitor, d: Monitor, c': Monitor, d': Monitor)
    requires c.other == c'.other && d.other == d'.other
    requires c.prometheus.Some? && d.prometheus.Some? && c'.prometheus.Some? && d'.prometheus.Some?
    requires c.prometheus.value.other == c'.prometheus.value.other
    requires d.prometheus.value.other == d'.prometheus.value.other
    requires forall k :: IsPrometheusKey(k) ==> !keep(["prometheus", k])
    ensures Filter(keep, Diff(MonitorYaml(Some(c)), MonitorYaml(Some(d))))
         == Filter(keep, Diff(MonitorYaml(Some(c')), MonitorYaml(Some(d'))))
  {
    var f, g, f', g' := MonitorFields(c), MonitorFields(d), MonitorFields(c'), MonitorFields(d');
    forall k: string ensures ChildDiff(keep, f, g, k) == ChildDiff(keep, f', g', k) {
      MonitorLookup(c, k);
      MonitorLookup(d, k);
      MonitorLookup(c', k);
      MonitorLookup(d', k);
      if k == "prometheus" {
        var below := Under(keep, k);
        forall j | IsPrometheusKey(j) ensures !below([j]) { assert [k] + [j] == ["prometheus", j]; }
        SamePrometheusDiff(below, c.prometheus.value, d.prometheus.value, c'.prometheus.value, d'.prometheus.value);
      }
    }
    SameFilteredDiff(keep, f, g, f', g');
  }

  /** Current, desired, and the two after one apply: monitors are the same, or differ in the three
      Prometheus fields only. */
  ghost predicate MonitorsMerge(c: Option<Monitor>, d: Option<Monitor>, c': Option<Monitor>, d': Option<Monitor>) {
    || (c == c' && d == d')
    || (&& c.Some? && d.Some? && c'.Some? && d'.Some?
        && c.value.other == c'.value.other && d.value.other == d'.value.other
        && c.value.prometheus.Some? && d.value.prometheus.Some?
        && c'.value.prometheus.Some? && d'.value.prometheus.Some?
        && c.value.prometheus.value.other == c'.value.prometheus.value.other
        && d.value.prometheus.value.other == d'.value.prometheus.value.other)
  }

  ghost predicate SkipsDeployment(keep: Path -> bool) {
    && (forall k :: IsScalarKey(k) ==> !keep([k]))
    && (forall k :: IsPrometheusKey(k) ==> !keep(["monitor", "prometheus", k]))
  }

  lemma ScalarLeaves(c: Deployment, d: Deployment, k: string)
    requires IsScalarKey(k)
    ensures !BothMappings(Lookup(DeploymentFields(c), k), Lookup(DeploymentFields(d), k))
  {
    DeploymentLookup(c, k);
    DeploymentLookup(d, k);
  }

  lemma SameMonitorChild(keep: Path -> bool, c: Option<Monitor>, d: Option<Monitor>, c': Option<Monitor>,
                         d': Option<Monitor>)
    requires MonitorsMerge(c, d, c', d') && SkipsDeployment(keep)
    ensures Filter(Under(keep, "monitor"), Diff(MonitorYaml(c), MonitorYaml(d)))
         == Filter(Under(keep, "monitor"), Diff(MonitorYaml(c'), MonitorYaml(d')))
  {
    if !(c == c' && d == d') {
      var below := Under(keep, "monitor");
      forall k | IsPrometheusKey(k) ensures !below(["prometheus", k]) {
        assert ["monitor"] + ["prometheus", k] == ["monitor", "prometheus", k];
      }
      SameMonitorDiff(below, c.value, d.value, c'.value, d'.value);
    }
  }

  lemma SameDeploymentChild(keep: Path -> bool, c: Deployment, d: Deployment, c': Deployment, d': Deployment, k: string)
    requires PlainFields(c) == PlainFields(c') && PlainFields(d) == PlainFields(d')
    requires c.enableTls == d.enableTls && c'.enableTls == d'.enableTls
    requires MonitorsMerge(c.monitor, d.monitor, c'.monitor, d'.monitor) && SkipsDeployment(keep)
    ensures ChildDiff(keep, DeploymentFields(c), DeploymentFields(d), k)
         == ChildDiff(keep, DeploymentFields(c'), DeploymentFields(d'), k)
  {
    var f, g, f', g' := DeploymentFields(c), DeploymentFields(d), DeploymentFields(c'), DeploymentFields(d');
    if IsScalarKey(k) {
      ScalarLeaves(c, d, k);
      ScalarLeaves(c', d', k);
      LeafIsSkipped(keep, f, g, k);
      LeafIsSkipped(keep, f', g', k);
    } else {
      DeploymentLookup(c, k);
      DeploymentLookup(d, k);
      DeploymentLookup(c', k);
      DeploymentLookup(d', k);
      if k == "enable_tls" {
        EqualIsSkipped(keep, f, g, k);
        EqualIsSkipped(keep, f', g', k);
      } else if k == "monitor" {
        SameMonitorChild(keep, c.monitor, d.monitor, c'.monitor, d'.monitor);
      }
    }
  }

  lemma SameConfigDiff(keep: Path -> bool, c: DeployConfig, d: DeployConfig, c': DeployConfig, d': DeployConfig)
    requires c.other == c'.other && d.other == d'.other
    requires PlainFields(c.deployment) == PlainFields(c'.deployment)
    requires PlainFields(d.deployment) == PlainFields(d'.deployment)
    requires c.deployment.enableTls == d.deployment.enableTls && c'.deployment.enableTls == d'.deployment.enableTls
    requires MonitorsMerge(c.deployment.monitor, d.deployment.monitor, c'.deployment.monitor, d'.deployment.monitor)
    requires SkipsSupported(keep)
    ensures Filter(keep, Diff(ConfigYaml(c), ConfigYaml(d))) == Filter(keep, Diff(ConfigYaml(c'), ConfigYaml(d')))
  {
    var below := Under(keep, "deployment");
    SkipsBelow(keep);
    forall k: string ensures ChildDiff(below, DeploymentFields(c.deployment), DeploymentFields(d.deployment), k)
                          == ChildDiff(below, DeploymentFields(c'.deployment), DeploymentFields(d'.deployment), k)
    {
      SameDeploymentChild(below, c.deployment, d.deployment, c'.deployment, d'.deployment, k);
    }
    SameFilteredDiff(below, DeploymentFields(c.deployment), DeploymentFields(d.deployment),
                     DeploymentFields(c'.deployment), DeploymentFields(d'.deployment));
    forall k: string
      ensures ChildDiff(keep, ConfigFields(c), ConfigFields(d), k)
           == ChildDiff(keep, ConfigFields(c'), ConfigFields(d'), k)
    {
      ConfigLookup(c, k);
      ConfigLookup(d, k);
      ConfigLookup(c', k);
      ConfigLookup(d', k);
    }
    SameFilteredDiff(keep, ConfigFields(c), ConfigFields(d), ConfigFields(c'), ConfigFields(d'));
  }

  lemma SkipsBelow(keep: Path -> bool)
    requires SkipsSupported(keep)
    ensures SkipsDeployment(Under(keep, "deployment"))
  {
    assert !keep(SUPPORTED_PATHS[0]) && !keep(SUPPORTED_PATHS[1]);
    assert !keep(SUPPORTED_PATHS[2]) && !keep(SUPPORTED_PATHS[3]) && !keep(SUPPORTED_PATHS[4]);
    forall k | IsScalarKey(k) ensures !keep(["deployment"] + [k]) {
      assert ["deployment"] + [k] == ["deployment", k];
    }
    forall k | IsPrometheusKey(k) ensures !keep(["deployment"] + ["monitor", "prometheus", k]) {
      assert ["deployment"] + ["monitor", "prometheus", k] == ["deployment", "monitor", "prometheus", k];
    }
  }

  /* ---------- the plan converges ---------- */

  lemma MergingTwice(current: DeployConfig, desired: DeployConfig)
    ensures Merged(Merged(current, desired), desired) == Merged(current, desired)
    ensures FieldChangesOf(Merged(current, desired), desired) == []
    ensures TxFieldUpdates(Merged(current, desired), desired) == []
  {
  }

  lemma MonitorsAfterMerge(current: DeployConfig, desired: DeployConfig)
    ensures var m := Merged(current, desired);
            MonitorsMerge(current.deployment.monitor, FillMonitor(current, desired), m.deployment.monitor,
                          FillMonitor(m, desired))
  {
  }

  lemma SamePlain(a: DeployConfig, b: DeployConfig)
    requires a.deployment.(enableTls := None, checkpointInterval := None, clusterMode := None, monitor := None)
          == b.deployment.(enableTls := None, checkpointInterval := None, clusterMode := None, monitor := None)
    ensures PlainFields(Normalize(a).deployment) == PlainFields(Normalize(b).deployment)
  {
  }

  /** What the planner keeps of the diff is the same before and after the merge. */
  lemma KeptDiffIsStable(keep: Path -> bool, current: DeployConfig, desired: DeployConfig)
    requires SkipsSupported(keep)
    ensures Filter(keep, ConfigDiff(Merged(current, desired), desired)) == Filter(keep, ConfigDiff(current, desired))
  {
    var merged := Merged(current, desired);
    var d, d' := DesiredForDiff(current, desired), DesiredForDiff(merged, desired);
    SamePlain(current, merged);
    SamePlain(d, d');
    MonitorsAfterMerge(current, desired);
    SameConfigDiff(keep, Normalize(current), Normalize(d), Normalize(merged), Normalize(d'));
  }

  /** Planning again from the merged configuration merges nothing more, reports the same unsupported
      differences, and changes nothing but the storage differences the first plan had, which no plan
      merges. */
  lemma ReplanConverges(current: DeployConfig, desired: DeployConfig)
    requires BuildPlan(current, desired).Ok?
    ensures var p := BuildPlan(current, desired).value;
            && BuildPlan(p.merged, desired).Ok?
            && var q := BuildPlan(p.merged, desired).value;
               && q.merged == p.merged && q.unsupported == p.unsupported && q.txFieldUpdates == []
               && q.changes == DiffChanges(StoreDiffs(current, desired))
               && (q.IsEmpty() <==> StoreDiffs(current, desired) == [])
  {
    var merged := Merged(current, desired);
    MergingTwice(current, desired);
    TestsSkipSupported();
    KeptDiffIsStable(StoreTest(), current, desired);
    KeptDiffIsStable(UnsupportedTest(), current, desired);
    PlanEmptyIffNoChanges(merged, desired);
    assert |DiffChanges(StoreDiffs(current, desired))| == |StoreDiffs(current, desired)|;
  }
}
