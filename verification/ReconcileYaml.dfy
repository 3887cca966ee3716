/** The YAML of a configuration tells everything about it, so that no difference escapes the diff. */
module ReconcileYaml {
  import opened Wrappers
  import opened YamlDiff
  import opened Reconcile
  import opened ReconcileTheorems
  import opened ReconcileReport
  import opened ReconcilePromises

  ghost predicate Lacks(fields: map<string, Yaml>, names: seq<string>) { forall k :: k in names ==> k !in fields }

  const PROMETHEUS_NAMES := ["retention_time", "retention_size", "remote_write_urls"]

  const DEPLOYMENT_NAMES := ["cluster_name", "version", "tx_service", "log_service", "storage_service", "monitor",
                             "checkpointer_interval", "enable_tls", "cluster_mode"]

  /** The maps for the fields that the planner does not name hold none of those that it names. */
  ghost predicate PartsAreApart(c: DeployConfig) {
    var d := c.deployment;
    && Lacks(c.other, ["deployment"]) && Lacks(d.other, DEPLOYMENT_NAMES) && Lacks(d.txService.other, ["image"])
    && (d.logService.Some? ==> Lacks(d.logService.value.other, ["image"]))
    && (d.monitor.Some? ==> MonitorIsApart(d.monitor.value))
  }

  ghost predicate MonitorIsApart(m: Monitor) {
    Lacks(m.other, ["prometheus"]) && (m.prometheus.Some? ==> Lacks(m.prometheus.value.other, PROMETHEUS_NAMES))
  }

  /** Maps that agree on all keys are the same. */
  lemma SameLookups(f: map<string, Yaml>, g: map<string, Yaml>)
    requires forall k :: Lookup(f, k) == Lookup(g, k)
    ensures f == g
  {
    forall k ensures k in f <==> k in g { assert Lookup(f, k) == Lookup(g, k); }
    forall k | k in f ensures f[k] == g[k] { assert Lookup(f, k) == Lookup(g, k); }
  }

  lemma SetFieldTells(f: map<string, Yaml>, g: map<string, Yaml>, k: string, v: Option<Yaml>, w: Option<Yaml>)
    requires SetField(f, k, v) == SetField(g, k, w) && Lacks(f, [k]) && Lacks(g, [k])
    ensures f == g && v == w
  {
    assert k in [k];
    forall j ensures Lookup(f, j) == Lookup(g, j) {
      SetFieldLookup(f, k, v, j);
      SetFieldLookup(g, k, w, j);
    }
    SetFieldLookup(f, k, v, k);
    SetFieldLookup(g, k, w, k);
    SameLookups(f, g);
  }

  lemma PrometheusTells(a: Prometheus, b: Prometheus)
    requires PrometheusFields(a) == PrometheusFields(b)
    requires Lacks(a.other, PROMETHEUS_NAMES) && Lacks(b.other, PROMETHEUS_NAMES)
    ensures a == b
  {
    var names := PROMETHEUS_NAMES;
    assert names[0] in names && names[1] in names && names[2] in names;
    assert "retention_time"[10] != "retention_size"[10];
    forall k ensures Lookup(a.other, k) == Lookup(b.other, k) {
      PrometheusLookup(a, k);
      PrometheusLookup(b, k);
    }
    SameLookups(a.other, b.other);
    DeepValues(a);
    DeepValues(b);
    FieldsInjective(a.remoteWriteUrls, b.remoteWriteUrls);
  }

  lemma MonitorTells(a: Option<Monitor>, b: Option<Monitor>)
    requires MonitorYaml(a) == MonitorYaml(b)
    requires (a.Some? ==> MonitorIsApart(a.value)) && (b.Some? ==> MonitorIsApart(b.value))
    ensures a == b
  {
    if a.Some? {
      SetFieldTells(a.value.other, b.value.other, "prometheus",
                    PrometheusYaml(a.value.prometheus), PrometheusYaml(b.value.prometheus));
      if a.value.prometheus.Some? { PrometheusTells(a.value.prometheus.value, b.value.prometheus.value); }
    }
  }

  lemma TxTells(a: Service, b: Service)
    requires TxYaml(a) == TxYaml(b) && Lacks(a.other, ["image"]) && Lacks(b.other, ["image"])
    ensures a == b
  {
    var v: Option<Yaml> := Some(match a.image { case Some(i) => Str(i) case None => Null });
    var w: Option<Yaml> := Some(match b.image { case Some(i) => Str(i) case None => Null });
    SetFieldTells(a.other, b.other, "image", v, w);
  }

  lemma LogTells(a: Option<Service>, b: Option<Service>)
    requires LogYaml(a) == LogYaml(b)
    requires (a.Some? ==> Lacks(a.value.other, ["image"])) && (b.Some? ==> Lacks(b.value.other, ["image"]))
    ensures a == b
  {
    if a.Some? {
      SetFieldTells(a.value.other, b.value.other, "image", StrField(a.value.image), StrField(b.value.image));
    }
  }

  lemma FieldsTell(a: Deployment, b: Deployment, k: string)
    requires DeploymentFields(a) == DeploymentFields(b)
    ensures k == "cluster_mode" ==> BoolField(a.clusterMode) == BoolField(b.clusterMode)
    ensures k == "enable_tls" ==> BoolField(a.enableTls) == BoolField(b.enableTls)
    ensures k == "checkpointer_interval" ==> NumField(a.checkpointInterval) == NumField(b.checkpointInterval)
    ensures k == "monitor" ==> MonitorYaml(a.monitor) == MonitorYaml(b.monitor)
  {
    DeploymentLookup(a, k);
    DeploymentLookup(b, k);
  }

  lemma PlainFieldsTell(a: Deployment, b: Deployment, k: string)
    requires Lookup(PlainFields(a), k) == Lookup(PlainFields(b), k)
    ensures k == "storage_service" ==> a.storageService == b.storageService
    ensures k == "log_service" ==> LogYaml(a.logService) == LogYaml(b.logService)
    ensures k == "tx_service" ==> TxYaml(a.txService) == TxYaml(b.txService)
    ensures k == "version" ==> StrField(a.version) == StrField(b.version)
    ensures k == "cluster_name" ==> a.clusterName == b.clusterName
  {
    PlainLookup(a, k);
    PlainLookup(b, k);
  }

  predicate IsPlainName(k: string) {
    k != "cluster_mode" && k != "enable_tls" && k != "checkpointer_interval" && k != "monitor"
  }

  lemma PlainNames()
    ensures IsPlainName("storage_service") && IsPlainName("log_service") && IsPlainName("tx_service")
    ensures IsPlainName("version") && IsPlainName("cluster_name")
  {
    assert "version"[0] == 'v' && "monitor"[0] == 'm' && "tx_service"[0] == 't' && "enable_tls"[0] == 'e';
    assert "cluster_name"[8] == 'n' && "cluster_mode"[8] == 'm';
  }

  lemma PlainPart(a: Deployment, b: Deployment, k: string)
    requires DeploymentFields(a) == DeploymentFields(b) && IsPlainName(k)
    ensures Lookup(PlainFields(a), k) == Lookup(PlainFields(b), k)
  {
    DeploymentLookup(a, k);
    DeploymentLookup(b, k);
  }

  lemma NamesAreListed(k: string)
    requires k !in DEPLOYMENT_NAMES
    ensures IsPlainName(k) && k != "storage_service" && k != "log_service" && k != "tx_service" && k != "version"
            && k != "cluster_name"
  {
    var names := DEPLOYMENT_NAMES;
    assert names[0] in names && names[1] in names && names[2] in names && names[3] in names && names[4] in names;
    assert names[5] in names && names[6] in names && names[7] in names && names[8] in names;
  }

  lemma OtherFieldsTell(a: Deployment, b: Deployment)
    requires DeploymentFields(a) == DeploymentFields(b)
    requires Lacks(a.other, DEPLOYMENT_NAMES) && Lacks(b.other, DEPLOYMENT_NAMES)
    ensures a.other == b.other
  {
    forall k ensures Lookup(a.other, k) == Lookup(b.other, k) {
      if k !in DEPLOYMENT_NAMES {
        NamesAreListed(k);
        PlainPart(a, b, k);
        PlainLookup(a, k);
        PlainLookup(b, k);
      }
    }
    SameLookups(a.other, b.other);
  }

  lemma DeploymentTells(a: Deployment, b: Deployment)
    requires DeploymentFields(a) == DeploymentFields(b)
    requires Lacks(a.other, DEPLOYMENT_NAMES) && Lacks(b.other, DEPLOYMENT_NAMES)
    ensures a.other == b.other && a.clusterName == b.clusterName && a.version == b.version
    ensures TxYaml(a.txService) == TxYaml(b.txService) && LogYaml(a.logService) == LogYaml(b.logService)
    ensures a.storageService == b.storageService && MonitorYaml(a.monitor) == MonitorYaml(b.monitor)
    ensures a.checkpointInterval == b.checkpointInterval && a.enableTls == b.enableTls && a.clusterMode == b.clusterMode
  {
    OtherFieldsTell(a, b);
    PlainNames();
    TellPlain(a, b, "cluster_name");
    TellPlain(a, b, "version");
    TellPlain(a, b, "tx_service");
    TellPlain(a, b, "log_service");
    TellPlain(a, b, "storage_service");
    FieldsTell(a, b, "monitor");
    FieldsTell(a, b, "checkpointer_interval");
    FieldsTell(a, b, "enable_tls");
    FieldsTell(a, b, "cluster_mode");
  }

  lemma TellPlain(a: Deployment, b: Deployment, k: string)
    requires DeploymentFields(a) == DeploymentFields(b) && IsPlainName(k)
    ensures k == "storage_service" ==> a.storageService == b.storageService
    ensures k == "log_service" ==> LogYaml(a.logService) == LogYaml(b.logService)
    ensures k == "tx_service" ==> TxYaml(a.txService) == TxYaml(b.txService)
    ensures k == "version" ==> StrField(a.version) == StrField(b.version)
    ensures k == "cluster_name" ==> a.clusterName == b.clusterName
  {
    PlainPart(a, b, k);
    PlainFieldsTell(a, b, k);
  }

  /** Two configurations with the same YAML are the same. */
  lemma YamlTellsAll(a: DeployConfig, b: DeployConfig)
    requires PartsAreApart(a) && PartsAreApart(b) && ConfigYaml(a) == ConfigYaml(b)
    ensures a == b
  {
    SetFieldTells(a.other, b.other, "deployment", Some(Mapping(DeploymentFields(a.deployment))),
                  Some(Mapping(DeploymentFields(b.deployment))));
    DeploymentTells(a.deployment, b.deployment);
    TxTells(a.deployment.txService, b.deployment.txService);
    LogTells(a.deployment.logService, b.deployment.logService);
    MonitorTells(a.deployment.monitor, b.deployment.monitor);
  }

  lemma StillApart(c: DeployConfig)
    requires PartsAreApart(c)
    ensures PartsAreApart(Normalize(c))
  {
  }

  lemma FilledIsApart(current: DeployConfig, desired: DeployConfig)
    requires PartsAreApart(desired)
    ensures PartsAreApart(DesiredForDiff(current, desired))
  {
  }

  /** The planner's diff is empty exactly when current and what counts as desired agree after normalising. */
  lemma NothingDiffersIff(current: DeployConfig, desired: DeployConfig)
    requires PartsAreApart(current) && PartsAreApart(desired)
    ensures ConfigDiff(current, desired) == [] <==> Normalize(current) == Normalize(DesiredForDiff(current, desired))
  {
    StillApart(current);
    FilledIsApart(current, desired);
    StillApart(DesiredForDiff(current, desired));
    var a, b := Normalize(current), Normalize(DesiredForDiff(current, desired));
    DiffEmptyIffEqual(ConfigYaml(a), ConfigYaml(b));
    if ConfigYaml(a) == ConfigYaml(b) { YamlTellsAll(a, b); }
  }

  /** Of the fields that the planner can merge, the diff sees those that desired gives another value; one
      that desired omits, and TLS in any case, count as they are. */
  lemma OnlyGivenFieldsDiffer(current: DeployConfig, desired: DeployConfig)
    ensures var c, d, paths := current.deployment, desired.deployment, ConfigDiff(current, desired);
            && ["deployment", "enable_tls"] !in paths
            && (["deployment", "checkpointer_interval"] in paths <==>
                  d.checkpointInterval.Some? && d.checkpointInterval != c.checkpointInterval)
            && (["deployment", "cluster_mode"] in paths <==> d.clusterMode.Some? && d.clusterMode != c.clusterMode)
  {
    var a, b := Normalize(current), Normalize(DesiredForDiff(current, desired));
    assert IsFlatKey("enable_tls") && IsFlatKey("checkpointer_interval") && IsFlatKey("cluster_mode");
    FlatReported(a, b, "enable_tls");
    FlatReported(a, b, "checkpointer_interval");
    FlatReported(a, b, "cluster_mode");
    FlatValues(a.deployment);
    FlatValues(b.deployment);
  }

  /** The same for the three fields of Prometheus, where both sides have it. */
  lemma OnlyGivenPrometheusDiffers(current: DeployConfig, desired: DeployConfig)
    requires PromOf(current).Some? && PromOf(desired).Some?
    ensures var c, d, paths := PromOf(current).value, PromOf(desired).value, ConfigDiff(current, desired);
            && (DeepPath("retention_time") in paths <==> d.retentionTime.Some? && d.retentionTime != c.retentionTime)
            && (DeepPath("retention_size") in paths <==> d.retentionSize.Some? && d.retentionSize != c.retentionSize)
            && (DeepPath("remote_write_urls") in paths <==>
                  d.remoteWriteUrls.Some? && d.remoteWriteUrls != c.remoteWriteUrls)
  {
    var a, b := Normalize(current), Normalize(DesiredForDiff(current, desired));
    var c, d := PromOf(a).value, PromOf(b).value;
    assert IsPrometheusKey("retention_time") && IsPrometheusKey("retention_size");
    assert IsPrometheusKey("remote_write_urls");
    DeepReported(a, b, "retention_time");
    DeepReported(a, b, "retention_size");
    DeepReported(a, b, "remote_write_urls");
    DeepValues(c);
    DeepValues(d);
    if UrlsField(c.remoteWriteUrls) == UrlsField(d.remoteWriteUrls) {
      FieldsInjective(c.remoteWriteUrls, d.remoteWriteUrls);
    }
  }
}
