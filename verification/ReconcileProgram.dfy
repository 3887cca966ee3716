/** `build_reconcile_plan` as the program that reassigns a merged configuration, a copy of the desired
    one, two flags and three vectors, proved to build the plan of `Reconcile`. */
module ReconcileProgram {
  import opened Wrappers
  import opened Text
  import opened YamlDiff
  import opened YamlDiffProgram
  import opened Reconcile

  /** The plan's vector of actions. */
  class PlanActions {
    var actions: seq<Action>

    constructor ()
      ensures actions == []
    {
      actions := [];
    }

    method Add(action: Action)
      modifies this
      ensures actions == AddAction(old(actions), action)
    {
      if action !in actions { actions := actions + [action]; }
    }
  }

  function WithTls(c: DeployConfig, v: Option<bool>): DeployConfig { c.(deployment := c.deployment.(enableTls := v)) }

  function WithCheckpoint(c: DeployConfig, v: Option<nat>): DeployConfig {
    c.(deployment := c.deployment.(checkpointInterval := v))
  }

  function WithMode(c: DeployConfig, v: Option<bool>): DeployConfig {
    c.(deployment := c.deployment.(clusterMode := v))
  }

  /** The Prometheus section is replaced only where a monitor with such a section exists. */
  function WithPrometheus(c: DeployConfig, p: Prometheus): DeployConfig {
    match c.deployment.monitor
    case Some(m) =>
      if m.prometheus.Some? then c.(deployment := c.deployment.(monitor := Some(m.(prometheus := Some(p))))) else c
    case None => c
  }

  /** One optional Prometheus field: `mergedValue` and `diffValue` are what the two copies hold after it. */
  method PlanField<T(==)>(path: Path, cur: Option<T>, des: Option<T>, show: Option<T> -> Option<Yaml>)
    returns (mergedValue: Option<T>, diffValue: Option<T>, changes: seq<Change>, restart: bool)
    requires show(cur) == show(des) ==> cur == des
    ensures mergedValue == diffValue == Prefer(des, cur)
    ensures changes == (if des.Some? && show(des) != show(cur) then [FieldChange(path, show(cur), show(des))] else [])
    ensures restart <==> changes != []
  {
    mergedValue, diffValue, changes, restart := cur, des, [], false;
    if des.Some? {
      if cur != des {
        mergedValue, restart := des, true;
        changes := [FieldChange(path, show(cur), show(des))];
      }
    } else {
      diffValue := cur;
    }
  }

  method PlanPrometheus(current: DeployConfig, desired: DeployConfig, merged0: DeployConfig, forDiff0: DeployConfig)
    returns (merged: DeployConfig, forDiff: DeployConfig, changes: seq<Change>, restart: bool)
    requires merged0.deployment.monitor == current.deployment.monitor
    requires forDiff0.deployment.monitor == desired.deployment.monitor
    ensures merged == merged0.(deployment := merged0.deployment.(monitor := MergeMonitor(current, desired)))
    ensures forDiff == forDiff0.(deployment := forDiff0.deployment.(monitor := FillMonitor(current, desired)))
    ensures changes == PrometheusChanges(current, desired)
    ensures restart <==> changes != []
  {
    merged, forDiff, changes, restart := merged0, forDiff0, [], false;
    match (PromOf(current), PromOf(desired))
    case (Some(c), Some(d)) =>
      UrlsInjective(c.remoteWriteUrls, d.remoteWriteUrls);
      var mt, dt, ct, rt := PlanField(["deployment", "monitor", "prometheus", "retention_time"],
        c.retentionTime, d.retentionTime, StrField);
      var ms, ds, cs, rs := PlanField(["deployment", "monitor", "prometheus", "retention_size"],
        c.retentionSize, d.retentionSize, StrField);
      var mu, du, cu, ru := PlanField(["deployment", "monitor", "prometheus", "remote_write_urls"],
        c.remoteWriteUrls, d.remoteWriteUrls, UrlsField);
      merged := WithPrometheus(merged, c.(retentionTime := mt, retentionSize := ms, remoteWriteUrls := mu));
      forDiff := WithPrometheus(forDiff, d.(retentionTime := dt, retentionSize := ds, remoteWriteUrls := du));
      changes, restart := ct + cs + cu, rt || rs || ru;
    case (cp, Some(d)) =>
      forDiff := WithPrometheus(forDiff, d.(retentionTime := None, retentionSize := None, remoteWriteUrls := None));
    case _ =>
  }

  lemma UrlsInjective(a: Option<seq<string>>, b: Option<seq<string>>)
    ensures UrlsField(a) == UrlsField(b) ==> a == b
  {
    if UrlsField(a) == UrlsField(b) { FieldsInjective(a, b); }
  }

  /** Testing the texts of paths is testing the paths. */
  lemma {:induction false} FilterTexts(keep: Path -> bool, test: string -> bool, paths: seq<Path>)
    requires forall p: Path :: keep(p) == test(Render("", p))
    ensures RenderAll("", Filter(keep, paths)) == Filter(test, RenderAll("", paths))
  {
    if paths != [] {
      assert RenderAll("", paths)[1..] == RenderAll("", paths[1..]);
      FilterTexts(keep, test, paths[1..]);
    }
  }

  /** Empty texts dropped, storage texts to one side, the unsupported of the others kept once each. */
  method Classify(texts: seq<string>) returns (store: seq<string>, unsupported: seq<string>)
    ensures store == Filter(IsStoreText, texts)
    ensures unsupported == Unique(Filter(IsUnsupportedText, texts))
  {
    var others := [];
    store := [];
    for i := 0 to |texts|
      invariant store == Filter(IsStoreText, texts[..i]) && others == Filter(IsUnsupportedText, texts[..i])
    {
      FilterPush(IsStoreText, texts, i);
      FilterPush(IsUnsupportedText, texts, i);
      if texts[i] != "" {
        if STORE_PREFIX <= texts[i] {
          store := store + [texts[i]];
        } else if texts[i] !in SUPPORTED {
          others := others + [texts[i]];
        }
      }
    }
    assert texts[..|texts|] == texts;
    unsupported := [];
    for i := 0 to |others|
      invariant unsupported == Unique(others[..i])
    {
      UniquePush(others, i);
      if others[i] !in unsupported { unsupported := unsupported + [others[i]]; }
    }
    assert others[..|others|] == others;
  }

  lemma ConfigTexts(current: DeployConfig, desired: DeployConfig)
    ensures StoreDiffs(current, desired) == Filter(IsStoreText, RenderAll("", ConfigDiff(current, desired)))
    ensures Unsupported(current, desired)
         == Unique(Filter(IsUnsupportedText, RenderAll("", ConfigDiff(current, desired))))
  {
    FilterTexts(StoreTest(), IsStoreText, ConfigDiff(current, desired));
    FilterTexts(UnsupportedTest(), IsUnsupportedText, ConfigDiff(current, desired));
  }

  method PlanActionList(changed: bool, storeRestart: bool, txUpdated: bool, monitorRestart: bool)
    returns (list: seq<Action>)
    ensures list == Actions(changed, storeRestart, txUpdated, monitorRestart)
  {
    var plan := new PlanActions();
    if changed { plan.Add(SaveClusterIndex); }
    if storeRestart {
      plan.Add(RegenerateEloqKvNodeConfig);
      plan.Add(RestartTxWithUpdatedConfig);
    }
    if txUpdated { plan.Add(RestartTxWithUpdatedConfig); }
    if monitorRestart { plan.Add(RestartMonitor); }
    if plan.actions != [] { plan.Add(VerifyClusterStatus); }
    list := plan.actions;
  }

  /** The two fields that are also sent to the running transaction nodes. */
  method PlanTxFields(current: DeployConfig, desired: DeployConfig, merged0: DeployConfig, forDiff0: DeployConfig)
    returns (merged: DeployConfig, forDiff: DeployConfig, changes: seq<Change>, tx: seq<string>)
    requires merged0.deployment.checkpointInterval == current.deployment.checkpointInterval
    requires merged0.deployment.clusterMode == current.deployment.clusterMode
    requires forDiff0.deployment.checkpointInterval == desired.deployment.checkpointInterval
    requires forDiff0.deployment.clusterMode == desired.deployment.clusterMode
    ensures var c, d := current.deployment, desired.deployment;
            && merged == WithMode(WithCheckpoint(merged0, Prefer(d.checkpointInterval, c.checkpointInterval)),
                                  Prefer(d.clusterMode, c.clusterMode))
            && forDiff == WithMode(WithCheckpoint(forDiff0, Prefer(d.checkpointInterval, c.checkpointInterval)),
                                   Prefer(d.clusterMode, c.clusterMode))
    ensures changes == CheckpointChanges(current, desired) + ModeChanges(current, desired)
    ensures tx == TxFieldUpdates(current, desired)
  {
    merged, forDiff, changes, tx := merged0, forDiff0, [], [];
    var c, d := current.deployment, desired.deployment;
    if d.checkpointInterval.Some? {
      if c.checkpointInterval != d.checkpointInterval {
        merged := WithCheckpoint(merged, d.checkpointInterval);
        tx := ["checkpointer_interval:" + Decimal(d.checkpointInterval.value)];
        changes := [FieldChange(["deployment", "checkpointer_interval"],
                                NumField(c.checkpointInterval), NumField(d.checkpointInterval))];
      }
    } else {
      forDiff := WithCheckpoint(forDiff, c.checkpointInterval);
    }
    assert changes == CheckpointChanges(current, desired);
    if d.clusterMode.Some? {
      if c.clusterMode != d.clusterMode {
        merged := WithMode(merged, d.clusterMode);
        tx := tx + ["cluster_mode:" + (if d.clusterMode.value then "true" else "false")];
        changes := changes
          + [FieldChange(["deployment", "cluster_mode"], BoolField(c.clusterMode), BoolField(d.clusterMode))];
      }
    } else {
      forDiff := WithMode(forDiff, c.clusterMode);
    }
  }

  /** The optional scalar fields of the deployment. */
  method PlanScalars(current: DeployConfig, desired: DeployConfig)
    returns (merged: DeployConfig, forDiff: DeployConfig, changes: seq<Change>, tx: seq<string>, storeRestart: bool)
    ensures var full := Merged(current, desired);
            merged == full.(deployment := full.deployment.(monitor := current.deployment.monitor))
    ensures forDiff == DesiredForDiff(current, desired).(deployment :=
                         DesiredForDiff(current, desired).deployment.(monitor := desired.deployment.monitor))
    ensures changes
         == TlsChanges(current, desired) + CheckpointChanges(current, desired) + ModeChanges(current, desired)
    ensures tx == TxFieldUpdates(current, desired)
    ensures storeRestart <==> TlsChanges(current, desired) != []
  {
    merged, forDiff, changes, storeRestart := current, desired, [], false;
    var c, d := current.deployment, desired.deployment;
    if d.enableTls.Some? && d.enableTls != c.enableTls {
      merged, storeRestart := WithTls(merged, d.enableTls), true;
      changes := [FieldChange(["deployment", "enable_tls"], BoolField(c.enableTls), BoolField(d.enableTls))];
    }
    forDiff := WithTls(forDiff, c.enableTls);
    var txChanges;
    merged, forDiff, txChanges, tx := PlanTxFields(current, desired, merged, forDiff);
    changes := changes + txChanges;
  }

  method DiffConfigs(current: DeployConfig, forDiff: DeployConfig)
    returns (store: seq<string>, unsupported: seq<string>)
    ensures var texts := RenderAll("", Diff(ConfigYaml(current), ConfigYaml(forDiff)));
            store == Filter(IsStoreText, texts) && unsupported == Unique(Filter(IsUnsupportedText, texts))
  {
    var sink := new DiffSink();
    PushYamlDiff("", ConfigYaml(current), ConfigYaml(forDiff), sink);
    assert sink.diffs == RenderAll("", Diff(ConfigYaml(current), ConfigYaml(forDiff)));
    store, unsupported := Classify(sink.diffs);
  }

  method FinishPlan(cluster: string, merged: DeployConfig, fieldChanges: seq<Change>, store: seq<string>,
                    unsupported: seq<string>,
                    tx: seq<string>, tlsChanged: bool, monitorRestart: bool) returns (plan: ReconcilePlan)
    ensures plan == MakePlan(cluster, merged, fieldChanges, store, unsupported, tx, tlsChanged, monitorRestart)
  {
    var changes, storeRestart := fieldChanges, tlsChanged;
    if store != [] {
      storeRestart := true;
      for i := 0 to |store|
        invariant changes == fieldChanges + DiffChanges(store[..i])
      {
        assert store[..i + 1] == store[..i] + [store[i]];
        changes := changes + [DiffText(store[i])];
      }
      assert store[..|store|] == store;
    }
    assert changes == fieldChanges + DiffChanges(store);
    var actions := PlanActionList(changes != [], storeRestart, tx != [], monitorRestart);
    plan := ReconcilePlan(cluster, merged, changes, unsupported, tx, actions);
  }

  method BuildReconcilePlan(current: DeployConfig, desired: DeployConfig)
    returns (plan: Result<ReconcilePlan, PlanError>)
    ensures plan == BuildPlan(current, desired)
  {
    var name := current.deployment.clusterName;
    if name != desired.deployment.clusterName {
      return Err(ClusterNameMismatch(name, desired.deployment.clusterName));
    }
    var merged0, forDiff0, changes, tx, storeRestart := PlanScalars(current, desired);
    var merged, forDiff, promChanges, monitorRestart := PlanPrometheus(current, desired, merged0, forDiff0);
    SameConfig(merged, Merged(current, desired), merged0, MergeMonitor(current, desired));
    SameConfig(forDiff, DesiredForDiff(current, desired), forDiff0, FillMonitor(current, desired));
    var store, unsupported := DiffConfigs(Normalize(current), Normalize(forDiff));
    ConfigTexts(current, desired);
    var built := FinishPlan(name, merged, changes + promChanges, store, unsupported, tx, storeRestart, monitorRestart);
    plan := Ok(built);
  }

  lemma SameConfig(got: DeployConfig, want: DeployConfig, part: DeployConfig, monitor: Option<Monitor>)
    requires got == part.(deployment := part.deployment.(monitor := monitor))
    requires exists m :: part == want.(deployment := want.deployment.(monitor := m))
    requires want.deployment.monitor == monitor
    ensures got == want
  {
  }
}
