/** Which differences between two configurations are reported, and which of them outside the fields
    that the planner merges carry over to other pairs of configurations. */
module ReconcileReport {
  import opened Wrappers
  import opened YamlDiff
  import opened DiffFilter
  import opened Reconcile
  import opened ReconcileTheorems

  /* ---------- which paths a configuration diff reports ---------- */

  lemma RootReported(x: Option<Yaml>, y: Option<Yaml>)
    ensures [] in Diff(x, y) <==> x != y && !BothMappings(x, y)
    ensures !BothMappings(x, y) ==> forall q :: q in Diff(x, y) ==> q == []
  {
    if BothMappings(x, y) {
      DiffMembers(x.value.fields, y.value.fields, []);
    }
  }

  /** The paths the planner knows how to merge. */
  predicate IsFieldPath(p: Path) { p == ["deployment", "enable_tls"] || p in SUPPORTED_PATHS }

  function FieldTest(): Path -> bool { (p: Path) => IsFieldPath(p) }

  /* ---------- configurations that agree outside the mergeable fields ---------- */

  ghost predicate AlikePrometheus(a: Option<Prometheus>, b: Option<Prometheus>) {
    a.Some? == b.Some? && (a.Some? ==> a.value.other == b.value.other)
  }

  ghost predicate AlikeMonitor(a: Option<Monitor>, b: Option<Monitor>) {
    && a.Some? == b.Some?
    && (a.Some? ==> a.value.other == b.value.other && AlikePrometheus(a.value.prometheus, b.value.prometheus))
  }

  ghost predicate Alike(a: DeployConfig, b: DeployConfig) {
    && a.other == b.other && PlainFields(a.deployment) == PlainFields(b.deployment)
    && AlikeMonitor(a.deployment.monitor, b.deployment.monitor)
  }

  /** What is reported for one pair of trees, outside the excepted paths, is reported for the other. */
  ghost predicate Kept(except: Path -> bool, c: Option<Yaml>, d: Option<Yaml>, c': Option<Yaml>, d': Option<Yaml>) {
    forall p: Path :: p in Diff(c, d) && !except(p) ==> p in Diff(c', d')
  }

  lemma KeptChildren(except: Path -> bool, c: map<string, Yaml>, d: map<string, Yaml>, c': map<string, Yaml>,
                     d': map<string, Yaml>)
    requires forall k: string :: Kept(Under(except, k), Lookup(c, k), Lookup(d, k), Lookup(c', k), Lookup(d', k))
    ensures Kept(except, Some(Mapping(c)), Some(Mapping(d)), Some(Mapping(c')), Some(Mapping(d')))
  {
    forall p: Path | p in Diff(Some(Mapping(c)), Some(Mapping(d))) && !except(p)
      ensures p in Diff(Some(Mapping(c')), Some(Mapping(d')))
    {
      DiffMembers(c, d, p);
      DiffMembers(c', d', p);
      var k, q := p[0], p[1..];
      assert Kept(Under(except, k), Lookup(c, k), Lookup(d, k), Lookup(c', k), Lookup(d', k));
      assert [k] + q == p && !Under(except, k)(q);
    }
  }

  lemma LeafKept(except: Path -> bool, c: Option<Yaml>, d: Option<Yaml>, c': Option<Yaml>, d': Option<Yaml>)
    requires !BothMappings(c, d) && except([])
    ensures Kept(except, c, d, c', d')
  {
    RootReported(c, d);
  }

  lemma PrometheusKept(except: Path -> bool, c: Option<Prometheus>, d: Option<Prometheus>, c': Option<Prometheus>,
                       d': Option<Prometheus>)
    requires AlikePrometheus(c, c') && AlikePrometheus(d, d') && forall k :: IsPrometheusKey(k) ==> except([k])
    ensures Kept(except, PrometheusYaml(c), PrometheusYaml(d), PrometheusYaml(c'), PrometheusYaml(d'))
  {
    if c.Some? && d.Some? {
      var f, g := PrometheusFields(c.value), PrometheusFields(d.value);
      var f', g' := PrometheusFields(c'.value), PrometheusFields(d'.value);
      forall k: string ensures Kept(Under(except, k), Lookup(f, k), Lookup(g, k), Lookup(f', k), Lookup(g', k)) {
        if IsPrometheusKey(k) {
          PrometheusLeaves(c.value, d.value, k);
          assert [k] + [] == [k];
          LeafKept(Under(except, k), Lookup(f, k), Lookup(g, k), Lookup(f', k), Lookup(g', k));
        } else {
          PrometheusLookup(c.value, k);
          PrometheusLookup(d.value, k);
          PrometheusLookup(c'.value, k);
          PrometheusLookup(d'.value, k);
        }
      }
      KeptChildren(except, f, g, f', g');
    }
  }

  lemma MonitorKept(except: Path -> bool, c: Option<Monitor>, d: Option<Monitor>, c': Option<Monitor>,
                    d': Option<Monitor>)
    requires AlikeMonitor(c, c') && AlikeMonitor(d, d') && forall k :: IsPrometheusKey(k) ==> except(["prometheus", k])
    ensures Kept(except, MonitorYaml(c), MonitorYaml(d), MonitorYaml(c'), MonitorYaml(d'))
  {
    if c.Some? && d.Some? {
      var f, g := MonitorFields(c.value), MonitorFields(d.value);
      var f', g' := MonitorFields(c'.value), MonitorFields(d'.value);
      forall k: string ensures Kept(Under(except, k), Lookup(f, k), Lookup(g, k), Lookup(f', k), Lookup(g', k)) {
        MonitorLookup(c.value, k);
        MonitorLookup(d.value, k);
        MonitorLookup(c'.value, k);
        MonitorLookup(d'.value, k);
        if k == "prometheus" {
          var below := Under(except, k);
          forall j | IsPrometheusKey(j) ensures below([j]) { assert [k] + [j] == ["prometheus", j]; }
          PrometheusKept(below, c.value.prometheus, d.value.prometheus, c'.value.prometheus, d'.value.prometheus);
        }
      }
      KeptChildren(except, f, g, f', g');
    }
  }

  ghost predicate ExceptsDeployment(except: Path -> bool) {
    && except(["enable_tls"]) && (forall k :: IsScalarKey(k) ==> except([k]))
    && (forall k :: IsPrometheusKey(k) ==> except(["monitor", "prometheus", k]))
  }

  lemma FieldsExcepted()
    ensures ExceptsDeployment(Under(FieldTest(), "deployment"))
  {
    var test := FieldTest();
    assert ["deployment"] + ["enable_tls"] == ["deployment", "enable_tls"];
    assert SUPPORTED_PATHS[0] in SUPPORTED_PATHS && SUPPORTED_PATHS[1] in SUPPORTED_PATHS;
    assert SUPPORTED_PATHS[2] in SUPPORTED_PATHS && SUPPORTED_PATHS[3] in SUPPORTED_PATHS;
    assert SUPPORTED_PATHS[4] in SUPPORTED_PATHS;
    forall k | IsScalarKey(k) ensures test(["deployment"] + [k]) {
      assert ["deployment"] + [k] == ["deployment", k];
    }
    forall k | IsPrometheusKey(k) ensures test(["deployment"] + ["monitor", "prometheus", k]) {
      assert ["deployment"] + ["monitor", "prometheus", k] == ["deployment", "monitor", "prometheus", k];
    }
  }

  lemma DeploymentKeyKept(except: Path -> bool, c: Deployment, d: Deployment, c': Deployment, d': Deployment, k: string)
    requires PlainFields(c) == PlainFields(c') && PlainFields(d) == PlainFields(d')
    requires AlikeMonitor(c.monitor, c'.monitor) && AlikeMonitor(d.monitor, d'.monitor) && ExceptsDeployment(except)
    ensures Kept(Under(except, k), Lookup(DeploymentFields(c), k), Lookup(DeploymentFields(d), k),
                 Lookup(DeploymentFields(c'), k), Lookup(DeploymentFields(d'), k))
  {
    DeploymentLookup(c, k);
    DeploymentLookup(d, k);
    if k == "enable_tls" || IsScalarKey(k) {
      assert [k] + [] == [k];
      LeafKept(Under(except, k), Lookup(DeploymentFields(c), k), Lookup(DeploymentFields(d), k),
               Lookup(DeploymentFields(c'), k), Lookup(DeploymentFields(d'), k));
    } else {
      DeploymentLookup(c', k);
      DeploymentLookup(d', k);
      if k == "monitor" {
        var below := Under(except, k);
        forall j | IsPrometheusKey(j) ensures below(["prometheus", j]) {
          assert [k] + ["prometheus", j] == ["monitor", "prometheus", j];
        }
        MonitorKept(below, c.monitor, d.monitor, c'.monitor, d'.monitor);
      }
    }
  }

  lemma DeploymentKept(except: Path -> bool, c: Deployment, d: Deployment, c': Deployment, d': Deployment)
    requires PlainFields(c) == PlainFields(c') && PlainFields(d) == PlainFields(d')
    requires AlikeMonitor(c.monitor, c'.monitor) && AlikeMonitor(d.monitor, d'.monitor) && ExceptsDeployment(except)
    ensures Kept(except, Some(Mapping(DeploymentFields(c))), Some(Mapping(DeploymentFields(d))),
                 Some(Mapping(DeploymentFields(c'))), Some(Mapping(DeploymentFields(d'))))
  {
    var f, g, f', g' := DeploymentFields(c), DeploymentFields(d), DeploymentFields(c'), DeploymentFields(d');
    forall k: string ensures Kept(Under(except, k), Lookup(f, k), Lookup(g, k), Lookup(f', k), Lookup(g', k)) {
      DeploymentKeyKept(except, c, d, c', d', k);
    }
    KeptChildren(except, f, g, f', g');
  }

  /** A reported path outside the mergeable fields is reported for any alike pair too. */
  lemma DiffKept(c: DeployConfig, d: DeployConfig, c': DeployConfig, d': DeployConfig)
    requires Alike(c, c') && Alike(d, d')
    ensures Kept(FieldTest(), ConfigYaml(c), ConfigYaml(d), ConfigYaml(c'), ConfigYaml(d'))
  {
    FieldsExcepted();
    DeploymentKept(Under(FieldTest(), "deployment"), c.deployment, d.deployment, c'.deployment, d'.deployment);
    var f, g, f', g' := ConfigFields(c), ConfigFields(d), ConfigFields(c'), ConfigFields(d');
    forall k: string ensures Kept(Under(FieldTest(), k), Lookup(f, k), Lookup(g, k), Lookup(f', k), Lookup(g', k)) {
      ConfigLookup(c, k);
      ConfigLookup(d, k);
      ConfigLookup(c', k);
      ConfigLookup(d', k);
    }
    KeptChildren(FieldTest(), f, g, f', g');
  }

  /* ---------- the mergeable fields ---------- */

  predicate IsFlatKey(k: string) { k == "enable_tls" || IsScalarKey(k) }

  function DeepPath(k: string): Path { ["deployment", "monitor", "prometheus", k] }

  lemma FieldPathCases(p: Path) returns (k: string, deep: bool)
    requires IsFieldPath(p)
    ensures if deep then p == DeepPath(k) && IsPrometheusKey(k) else p == ["deployment", k] && IsFlatKey(k)
  {
    if p in SUPPORTED_PATHS {
      var i :| 0 <= i < |SUPPORTED_PATHS| && SUPPORTED_PATHS[i] == p;
      k, deep := p[|p| - 1], i > 1;
    } else {
      k, deep := "enable_tls", false;
    }
  }

  lemma FlatLeaves(c: Deployment, d: Deployment, k: string)
    requires IsFlatKey(k)
    ensures !BothMappings(Lookup(DeploymentFields(c), k), Lookup(DeploymentFields(d), k))
  {
    DeploymentLookup(c, k);
    DeploymentLookup(d, k);
  }

  lemma FlatAt(c: DeployConfig, k: string)
    ensures At(ConfigYaml(c), ["deployment", k]) == Lookup(DeploymentFields(c.deployment), k)
  {
    ConfigLookup(c, "deployment");
    AtStep(ConfigFields(c), "deployment", [k]);
    AtStep(DeploymentFields(c.deployment), k, []);
    assert ["deployment"] + [k] == ["deployment", k] && [k] + [] == [k];
  }

  lemma AtStep(fields: map<string, Yaml>, k: string, rest: Path)
    ensures At(Some(Mapping(fields)), [k] + rest) == At(Lookup(fields, k), rest)
  {
    assert ([k] + rest)[1..] == rest;
  }

  function DeepField(c: DeployConfig, k: string): Option<Yaml> {
    match PromOf(c)
    case Some(p) => Lookup(PrometheusFields(p), k)
    case None => None
  }

  lemma MonitorAt(m: Option<Monitor>, k: string)
    ensures At(MonitorYaml(m), ["prometheus", k]) ==
              if m.Some? && m.value.prometheus.Some?
              then Lookup(PrometheusFields(m.value.prometheus.value), k) else None
  {
    if m.Some? {
      MonitorLookup(m.value, "prometheus");
      AtStep(MonitorFields(m.value), "prometheus", [k]);
      assert ["prometheus"] + [k] == ["prometheus", k] && [k] + [] == [k];
      if m.value.prometheus.Some? { AtStep(PrometheusFields(m.value.prometheus.value), k, []); }
    }
  }

  lemma DeepAt(c: DeployConfig, k: string)
    ensures At(ConfigYaml(c), DeepPath(k)) == DeepField(c, k)
  {
    ConfigLookup(c, "deployment");
    DeploymentLookup(c.deployment, "monitor");
    AtStep(ConfigFields(c), "deployment", ["monitor", "prometheus", k]);
    AtStep(DeploymentFields(c.deployment), "monitor", ["prometheus", k]);
    assert ["deployment"] + ["monitor", "prometheus", k] == DeepPath(k);
    assert ["monitor"] + ["prometheus", k] == ["monitor", "prometheus", k];
    MonitorAt(c.deployment.monitor, k);
  }

  lemma FlatReported(a: DeployConfig, b: DeployConfig, k: string)
    requires IsFlatKey(k)
    ensures ["deployment", k] in Diff(ConfigYaml(a), ConfigYaml(b))
       <==> Lookup(DeploymentFields(a.deployment), k) != Lookup(DeploymentFields(b.deployment), k)
  {
    var f, g := DeploymentFields(a.deployment), DeploymentFields(b.deployment);
    ConfigLookup(a, "deployment");
    ConfigLookup(b, "deployment");
    DiffMembers(ConfigFields(a), ConfigFields(b), ["deployment", k]);
    assert ["deployment", k][1..] == [k] && [k][1..] == [];
    DiffMembers(f, g, [k]);
    FlatLeaves(a.deployment, b.deployment, k);
    RootReported(Lookup(f, k), Lookup(g, k));
  }

  lemma MonitorReported(a: Option<Monitor>, b: Option<Monitor>, k: string)
    requires IsPrometheusKey(k)
    ensures ["prometheus", k] in Diff(MonitorYaml(a), MonitorYaml(b)) <==>
              && a.Some? && a.value.prometheus.Some? && b.Some? && b.value.prometheus.Some?
              && Lookup(PrometheusFields(a.value.prometheus.value), k)
                 != Lookup(PrometheusFields(b.value.prometheus.value), k)
  {
    RootReported(MonitorYaml(a), MonitorYaml(b));
    if a.Some? && b.Some? {
      var x, y := PrometheusYaml(a.value.prometheus), PrometheusYaml(b.value.prometheus);
      MonitorLookup(a.value, "prometheus");
      MonitorLookup(b.value, "prometheus");
      DiffMembers(MonitorFields(a.value), MonitorFields(b.value), ["prometheus", k]);
      assert ["prometheus", k][1..] == [k] && [k][1..] == [];
      RootReported(x, y);
      if x.Some? && y.Some? {
        var f, g := x.value.fields, y.value.fields;
        DiffMembers(f, g, [k]);
        PrometheusLeaves(a.value.prometheus.value, b.value.prometheus.value, k);
        RootReported(Lookup(f, k), Lookup(g, k));
      }
    }
  }

  lemma DeepReported(a: DeployConfig, b: DeployConfig, k: string)
    requires IsPrometheusKey(k)
    ensures DeepPath(k) in Diff(ConfigYaml(a), ConfigYaml(b))
       <==> PromOf(a).Some? && PromOf(b).Some? && DeepField(a, k) != DeepField(b, k)
  {
    ConfigLookup(a, "deployment");
    ConfigLookup(b, "deployment");
    DiffMembers(ConfigFields(a), ConfigFields(b), DeepPath(k));
    assert DeepPath(k)[1..] == ["monitor", "prometheus", k] && ["monitor", "prometheus", k][1..] == ["prometheus", k];
    DiffMembers(DeploymentFields(a.deployment), DeploymentFields(b.deployment), ["monitor", "prometheus", k]);
    DeploymentLookup(a.deployment, "monitor");
    DeploymentLookup(b.deployment, "monitor");
    MonitorReported(a.deployment.monitor, b.deployment.monitor, k);
  }
}
