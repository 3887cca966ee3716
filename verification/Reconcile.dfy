/** The planner of `build_reconcile_plan`: the fields it supports are merged from the desired
    configuration over the current one, every other difference is reported as unsupported. */
module Reconcile {
  import opened Wrappers
  import opened Text
  import opened YamlDiff
  import opened YamlDiffProgram

  /* ---------- configurations: the fields the planner names, and the rest as YAML ---------- */

  datatype Prometheus = Prometheus(retentionTime: Option<string>, retentionSize: Option<string>,
                                   remoteWriteUrls: Option<seq<string>>, other: map<string, Yaml>)

  datatype Monitor = Monitor(prometheus: Option<Prometheus>, other: map<string, Yaml>)

  datatype Service = Service(image: Option<string>, other: map<string, Yaml>)

  datatype Deployment = Deployment(clusterName: string, version: Option<string>, txService: Service,
                                   logService: Option<Service>, storageService: Option<Yaml>, monitor: Option<Monitor>,
                                   checkpointInterval: Option<nat>, enableTls: Option<bool>, clusterMode: Option<bool>,
                                   other: map<string, Yaml>)

  datatype DeployConfig = DeployConfig(deployment: Deployment, other: map<string, Yaml>)

  function StrField(v: Option<string>): Option<Yaml> {
    match v
    case Some(s) => Some(Str(s))
    case None => None
  }

  function BoolField(v: Option<bool>): Option<Yaml> {
    match v
    case Some(b) => Some(Bool(b))
    case None => None
  }

  function NumField(v: Option<nat>): Option<Yaml> {
    match v
    case Some(n) => Some(Number(n))
    case None => None
  }

  function UrlsField(v: Option<seq<string>>): Option<Yaml> {
    match v
    case Some(urls) => Some(Sequence(seq(|urls|, i requires 0 <= i < |urls| => Str(urls[i]))))
    case None => None
  }

  lemma FieldsInjective(a: Option<seq<string>>, b: Option<seq<string>>)
    requires UrlsField(a) == UrlsField(b)
    ensures a == b
  {
    if a.Some? {
      var x, y := UrlsField(a).value.items, UrlsField(b).value.items;
      forall i | 0 <= i < |a.value| ensures a.value[i] == b.value[i] { assert x[i] == y[i]; }
      assert a.value == b.value;
    }
  }

  /** The serialised fields; a field that is absent is skipped. */
  function PrometheusFields(p: Prometheus): map<string, Yaml> {
    SetField(SetField(SetField(p.other,
      "retention_time", StrField(p.retentionTime)),
      "retention_size", StrField(p.retentionSize)),
      "remote_write_urls", UrlsField(p.remoteWriteUrls))
  }

  function PrometheusYaml(p: Option<Prometheus>): Option<Yaml> {
    match p
    case Some(v) => Some(Mapping(PrometheusFields(v)))
    case None => None
  }

  function MonitorFields(m: Monitor): map<string, Yaml> {
    SetField(m.other, "prometheus", PrometheusYaml(m.prometheus))
  }

  function MonitorYaml(m: Option<Monitor>): Option<Yaml> {
    match m
    case Some(v) => Some(Mapping(MonitorFields(v)))
    case None => None
  }

  /** The transaction service writes an absent image as null, the log service skips it. */
  function TxYaml(s: Service): Yaml {
    Mapping(SetField(s.other, "image", Some(match s.image { case Some(i) => Str(i) case None => Null })))
  }

  function LogYaml(s: Option<Service>): Option<Yaml> {
    match s
    case Some(v) => Some(Mapping(SetField(v.other, "image", StrField(v.image))))
    case None => None
  }

  function DeploymentFields(d: Deployment): map<string, Yaml> {
    SetField(SetField(SetField(SetField(SetField(SetField(SetField(SetField(SetField(d.other,
      "cluster_name", Some(Str(d.clusterName))),
      "version", StrField(d.version)),
      "tx_service", Some(TxYaml(d.txService))),
      "log_service", LogYaml(d.logService)),
      "storage_service", d.storageService),
      "monitor", MonitorYaml(d.monitor)),
      "checkpointer_interval", NumField(d.checkpointInterval)),
      "enable_tls", BoolField(d.enableTls)),
      "cluster_mode", BoolField(d.clusterMode))
  }

  function ConfigFields(c: DeployConfig): map<string, Yaml> {
    SetField(c.other, "deployment", Some(Mapping(DeploymentFields(c.deployment))))
  }

  function ConfigYaml(c: DeployConfig): Option<Yaml> { Some(Mapping(ConfigFields(c))) }

  /* ---------- the planner's pieces ---------- */

  /** What the user wrote, or what is there if nothing was written. */
  function Prefer<T>(desired: Option<T>, current: Option<T>): Option<T> {
    if desired.Some? then desired else current
  }

  function PromOf(c: DeployConfig): Option<Prometheus> {
    match c.deployment.monitor
    case Some(m) => m.prometheus
    case None => None
  }

  function MergePrometheus(current: Prometheus, desired: Prometheus): Prometheus {
    current.(retentionTime := Prefer(desired.retentionTime, current.retentionTime),
             retentionSize := Prefer(desired.retentionSize, current.retentionSize),
             remoteWriteUrls := Prefer(desired.remoteWriteUrls, current.remoteWriteUrls))
  }

  function MergeMonitor(current: DeployConfig, desired: DeployConfig): Option<Monitor> {
    match (current.deployment.monitor, PromOf(current), PromOf(desired))
    case (Some(m), Some(cp), Some(dp)) => Some(m.(prometheus := Some(MergePrometheus(cp, dp))))
    case _ => current.deployment.monitor
  }

  /** The configuration that is saved: current, with the supported fields the user wrote. */
  function Merged(current: DeployConfig, desired: DeployConfig): DeployConfig {
    var c, d := current.deployment, desired.deployment;
    current.(deployment := c.(
      enableTls := Prefer(d.enableTls, c.enableTls),
      checkpointInterval := Prefer(d.checkpointInterval, c.checkpointInterval),
      clusterMode := Prefer(d.clusterMode, c.clusterMode),
      monitor := MergeMonitor(current, desired)))
  }

  function FillPrometheus(current: Option<Prometheus>, desired: Prometheus): Prometheus {
    match current
    case Some(c) =>
      desired.(retentionTime := Prefer(desired.retentionTime, c.retentionTime),
               retentionSize := Prefer(desired.retentionSize, c.retentionSize),
               remoteWriteUrls := Prefer(desired.remoteWriteUrls, c.remoteWriteUrls))
    case None => desired.(retentionTime := None, retentionSize := None, remoteWriteUrls := None)
  }

  function FillMonitor(current: DeployConfig, desired: DeployConfig): Option<Monitor> {
    match desired.deployment.monitor
    case Some(m) =>
      (match m.prometheus
       case Some(p) => Some(m.(prometheus := Some(FillPrometheus(PromOf(current), p))))
       case None => Some(m))
    case None => None
  }

  /** Desired with the omitted supported fields filled in from current, so that they do not count
      as differences. */
  function DesiredForDiff(current: DeployConfig, desired: DeployConfig): DeployConfig {
    var c, d := current.deployment, desired.deployment;
    desired.(deployment := d.(
      enableTls := c.enableTls,
      checkpointInterval := Prefer(d.checkpointInterval, c.checkpointInterval),
      clusterMode := Prefer(d.clusterMode, c.clusterMode),
      monitor := FillMonitor(current, desired)))
  }

  function WithoutImage(s: Option<Service>): Option<Service> {
    match s
    case Some(v) => Some(v.(image := None))
    case None => None
  }

  /** `normalize_config_for_apply_diff` */
  function Normalize(c: DeployConfig): DeployConfig {
    var d := c.deployment;
    c.(deployment := d.(
      version := if d.version == None || d.version == Some("latest") then Some("__ignored__") else d.version,
      txService := d.txService.(image := None),
      logService := WithoutImage(d.logService)))
  }

  ghost function ConfigDiff(current: DeployConfig, desired: DeployConfig): seq<Path> {
    Diff(ConfigYaml(Normalize(current)), ConfigYaml(Normalize(DesiredForDiff(current, desired))))
  }

  /* ---------- the tests on reported paths, made on the dotted text ---------- */

  const STORE_PREFIX := "deployment.storage_service"

  const SUPPORTED: seq<string> := [
    "deployment.checkpointer_interval",
    "deployment.cluster_mode",
    "deployment.monitor.prometheus.retention_time",
    "deployment.monitor.prometheus.retention_size",
    "deployment.monitor.prometheus.remote_write_urls"
  ]

  predicate IsStoreText(text: string) { text != "" && STORE_PREFIX <= text }

  predicate IsUnsupportedText(text: string) { text != "" && !(STORE_PREFIX <= text) && text !in SUPPORTED }

  function StoreTest(): Path -> bool { (p: Path) => IsStoreText(Render("", p)) }

  function UnsupportedTest(): Path -> bool { (p: Path) => IsUnsupportedText(Render("", p)) }

  datatype Change = FieldChange(path: Path, from: Option<Yaml>, into: Option<Yaml>) | DiffText(text: string)

  function FieldChanges(path: Path, current: Option<Yaml>, desired: Option<Yaml>): seq<Change> {
    if desired.Some? && desired != current then [FieldChange(path, current, desired)] else []
  }

  function PrometheusChanges(current: DeployConfig, desired: DeployConfig): seq<Change> {
    match (PromOf(current), PromOf(desired))
    case (Some(c), Some(d)) =>
      FieldChanges(["deployment", "monitor", "prometheus", "retention_time"],
                   StrField(c.retentionTime), StrField(d.retentionTime))
      + FieldChanges(["deployment", "monitor", "prometheus", "retention_size"],
                     StrField(c.retentionSize), StrField(d.retentionSize))
      + FieldChanges(["deployment", "monitor", "prometheus", "remote_write_urls"],
                     UrlsField(c.remoteWriteUrls), UrlsField(d.remoteWriteUrls))
    case _ => []
  }

  function TlsChanges(current: DeployConfig, desired: DeployConfig): seq<Change> {
    FieldChanges(["deployment", "enable_tls"], BoolField(current.deployment.enableTls),
                 BoolField(desired.deployment.enableTls))
  }

  function CheckpointChanges(current: DeployConfig, desired: DeployConfig): seq<Change> {
    FieldChanges(["deployment", "checkpointer_interval"],
                 NumField(current.deployment.checkpointInterval), NumField(desired.deployment.checkpointInterval))
  }

  function ModeChanges(current: DeployConfig, desired: DeployConfig): seq<Change> {
    FieldChanges(["deployment", "cluster_mode"], BoolField(current.deployment.clusterMode),
                 BoolField(desired.deployment.clusterMode))
  }

  function DiffChanges(texts: seq<string>): seq<Change> {
    seq(|texts|, i requires 0 <= i < |texts| => DiffText(texts[i]))
  }

  ghost function StoreDiffs(current: DeployConfig, desired: DeployConfig): seq<string> {
    RenderAll("", Filter(StoreTest(), ConfigDiff(current, desired)))
  }

  function FieldChangesOf(current: DeployConfig, desired: DeployConfig): seq<Change> {
    TlsChanges(current, desired) + CheckpointChanges(current, desired) + ModeChanges(current, desired)
    + PrometheusChanges(current, desired)
  }

  ghost function Changes(current: DeployConfig, desired: DeployConfig): seq<Change> {
    FieldChangesOf(current, desired) + DiffChanges(StoreDiffs(current, desired))
  }

  ghost function Unsupported(current: DeployConfig, desired: DeployConfig): seq<string> {
    Unique(RenderAll("", Filter(UnsupportedTest(), ConfigDiff(current, desired))))
  }

  function TxFieldUpdates(current: DeployConfig, desired: DeployConfig): seq<string> {
    (if CheckpointChanges(current, desired) == [] then []
     else ["checkpointer_interval:" + Decimal(desired.deployment.checkpointInterval.GetOr(0))])
    + (if ModeChanges(current, desired) == [] then []
       else ["cluster_mode:" + (if desired.deployment.clusterMode.GetOr(false) then "true" else "false")])
  }

  datatype Action =
    | SaveClusterIndex
    | RegenerateEloqKvNodeConfig
    | RestartTxWithUpdatedConfig
    | RestartMonitor
    | VerifyClusterStatus

  /** `add_action`: an action is planned once. */
  function AddAction(actions: seq<Action>, action: Action): seq<Action> {
    if action in actions then actions else actions + [action]
  }

  function AddIf(actions: seq<Action>, condition: bool, action: Action): seq<Action> {
    if condition then AddAction(actions, action) else actions
  }

  function Actions(changed: bool, storeRestart: bool, txUpdated: bool, monitorRestart: bool): seq<Action> {
    var a1 := AddIf([], changed, SaveClusterIndex);
    var a2 := AddIf(AddIf(a1, storeRestart, RegenerateEloqKvNodeConfig), storeRestart, RestartTxWithUpdatedConfig);
    var a3 := AddIf(a2, txUpdated, RestartTxWithUpdatedConfig);
    var a4 := AddIf(a3, monitorRestart, RestartMonitor);
    AddIf(a4, a4 != [], VerifyClusterStatus)
  }

  datatype ReconcilePlan = ReconcilePlan(cluster: string, merged: DeployConfig, changes: seq<Change>,
                                         unsupported: seq<string>, txFieldUpdates: seq<string>, actions: seq<Action>)
  {
    predicate IsEmpty() { changes == [] && txFieldUpdates == [] && actions == [] }
  }

  datatype PlanError = ClusterNameMismatch(state: string, yaml: string)

  function MakePlan(cluster: string, merged: DeployConfig, fieldChanges: seq<Change>, store: seq<string>,
                    unsupported: seq<string>, tx: seq<string>, tlsChanged: bool, monitorRestart: bool): ReconcilePlan
  {
    var changes := fieldChanges + DiffChanges(store);
    var actions := Actions(changes != [], tlsChanged || store != [], tx != [], monitorRestart);
    ReconcilePlan(cluster, merged, changes, unsupported, tx, actions)
  }

  ghost function BuildPlan(current: DeployConfig, desired: DeployConfig): Result<ReconcilePlan, PlanError> {
    if current.deployment.clusterName != desired.deployment.clusterName
    then Err(ClusterNameMismatch(current.deployment.clusterName, desired.deployment.clusterName))
    else
      Ok(MakePlan(current.deployment.clusterName, Merged(current, desired), FieldChangesOf(current, desired),
                  StoreDiffs(current, desired), Unsupported(current, desired), TxFieldUpdates(current, desired),
                  TlsChanges(current, desired) != [], PrometheusChanges(current, desired) != []))
  }

  /* ---------- an empty plan ---------- */

  lemma ActionsEmptyIff(changed: bool, storeRestart: bool, txUpdated: bool, monitorRestart: bool)
    ensures Actions(changed, storeRestart, txUpdated, monitorRestart) == []
       <==> !changed && !storeRestart && !txUpdated && !monitorRestart
  {
  }

  /** A plan is empty exactly when it has no supported changes. */
  lemma PlanEmptyIffNoChanges(current: DeployConfig, desired: DeployConfig)
    requires BuildPlan(current, desired).Ok?
    ensures BuildPlan(current, desired).value.IsEmpty() <==> BuildPlan(current, desired).value.changes == []
  {
    var plan := BuildPlan(current, desired).value;
    ActionsEmptyIff(plan.changes != [], TlsChanges(current, desired) != [] || StoreDiffs(current, desired) != [],
                    plan.txFieldUpdates != [], PrometheusChanges(current, desired) != []);
    if plan.changes == [] {
      assert |Changes(current, desired)| == |TlsChanges(current, desired)| + |CheckpointChanges(current, desired)|
        + |ModeChanges(current, desired)| + |PrometheusChanges(current, desired)| + |StoreDiffs(current, desired)|;
    }
  }
}
