/** The dotted texts by which the planner recognises paths. The names of structure fields hold no dot;
    keys of the maps below them, such as the addresses that hardware is listed under, may hold any. */
module ReconcilePaths {
  import opened Wrappers
  import opened Text
  import opened YamlDiff
  import opened YamlDiffProgram
  import opened Reconcile
  import opened ReconcileTheorems

  ghost predicate IsName(k: string) { k != "" && FreeOf(k, {'.'}) }

  /** The keys of a path that name structure fields are plain names: the first, behind `deployment` the
      second, behind `monitor` the third, behind `prometheus` the fourth. Other keys are arbitrary. */
  ghost predicate HeadNamed(p: Path) {
    && p != [] && IsName(p[0])
    && (|p| > 1 && p[0] == "deployment" ==> IsName(p[1]))
    && (|p| > 2 && p[0] == "deployment" && p[1] == "monitor" ==> IsName(p[2]))
    && (|p| > 3 && p[0] == "deployment" && p[1] == "monitor" && p[2] == "prometheus" ==> IsName(p[3]))
  }

  /* ---------- splitting the text of a path ---------- */

  lemma RenderIsJoinOf(p: Path)
    requires p != [] && p[0] != ""
    ensures Render("", p) == Join(p, ".") && Join(p, ".") != ""
  {
    RenderIsJoin(p[0], p[1..]);
    assert [p[0]] + p[1..] == p;
  }

  /** The pieces that each key is split into. */
  function Pieces(p: Path): seq<seq<string>> {
    seq(|p|, i requires 0 <= i < |p| => Split(p[i], {'.'}))
  }

  lemma TextPieces(p: Path)
    requires p != [] && p[0] != ""
    ensures Split(Render("", p), {'.'}) == Flatten(Pieces(p))
  {
    RenderIsJoinOf(p);
    SplitJoin(p, '.', {'.'});
  }

  /** A path splits into its front keys, as far as they are names, and at least one piece for each of
      the others. */
  lemma {:induction false} FrontPieces(p: Path, n: nat)
    requires n <= |p| && forall i :: 0 <= i < n ==> IsName(p[i])
    ensures |Flatten(Pieces(p))| >= |p| && Flatten(Pieces(p))[..n] == p[..n]
    ensures n == |p| ==> Flatten(Pieces(p)) == p
    decreases |p|
  {
    if p != [] {
      var rest := p[1..];
      assert Pieces(p)[1..] == Pieces(rest);
      FrontPieces(rest, if n == 0 then 0 else n - 1);
      if n > 0 {
        SplitFree(p[0], {'.'});
        assert Flatten(Pieces(p)) == [p[0]] + Flatten(Pieces(rest));
        assert p == [p[0]] + rest;
      }
    }
  }

  /** A path whose text splits into `q` has the front of `q`, as far as its keys are names. */
  lemma SameFront(p: Path, q: Path, n: nat)
    requires p != [] && p[0] != "" && Split(Render("", p), {'.'}) == q
    requires n <= |p| && forall i :: 0 <= i < n ==> IsName(p[i])
    ensures |q| >= |p| && p[..n] == q[..n]
    ensures n == |p| ==> p == q
  {
    TextPieces(p);
    FrontPieces(p, n);
  }

  /* ---------- the supported texts ---------- */

  lemma SupportedAreNamed(i: nat)
    requires i < 5
    ensures forall k :: k in SUPPORTED_PATHS[i] ==> IsName(k)
  {
    assert IsName("deployment") && IsName("checkpointer_interval") && IsName("cluster_mode");
    assert IsName("monitor") && IsName("prometheus");
    assert IsName("retention_time") && IsName("retention_size") && IsName("remote_write_urls");
  }

  /** A supported path is `deployment` with one field, or `deployment.monitor.prometheus` with one. */
  lemma SupportedShape(i: nat)
    requires i < 5
    ensures var q := SUPPORTED_PATHS[i];
            && q[0] == "deployment"
            && (|q| == 2 || (|q| == 4 && q[1] == "monitor" && q[2] == "prometheus"))
  {
  }

  lemma SupportedSplit(i: nat)
    requires i < 5
    ensures Split(SUPPORTED[i], {'.'}) == SUPPORTED_PATHS[i]
  {
    SupportedRender(i);
    SupportedAreNamed(i);
    RenderReadsBack(SUPPORTED_PATHS[i]);
  }

  lemma FrontAt(p: Path, q: Path, n: nat, i: nat)
    requires n <= |p| && n <= |q| && p[..n] == q[..n] && i < n
    ensures p[i] == q[i]
  {
    assert p[..n][i] == p[i] && q[..n][i] == q[i];
  }

  /** A path whose text is that of a supported path is that path. */
  lemma TextOfSupported(p: Path, q: Path)
    requires HeadNamed(p) && Split(Render("", p), {'.'}) == q && q != [] && q[0] == "deployment"
    requires |q| == 2 || (|q| == 4 && q[1] == "monitor" && q[2] == "prometheus")
    ensures p == q
  {
    SameFront(p, q, 1);
    FrontAt(p, q, 1, 0);
    if |p| > 1 {
      SameFront(p, q, 2);
      FrontAt(p, q, 2, 1);
      if |p| > 2 {
        SameFront(p, q, 3);
        FrontAt(p, q, 3, 2);
        if |p| > 3 { SameFront(p, q, 4); }
      }
    }
  }

  lemma SupportedTextIff(p: Path)
    requires HeadNamed(p)
    ensures Render("", p) in SUPPORTED <==> p in SUPPORTED_PATHS
  {
    if Render("", p) in SUPPORTED {
      var i :| 0 <= i < |SUPPORTED| && SUPPORTED[i] == Render("", p);
      SupportedSplit(i);
      SupportedShape(i);
      TextOfSupported(p, SUPPORTED_PATHS[i]);
    }
    if p in SUPPORTED_PATHS {
      var i :| 0 <= i < |SUPPORTED_PATHS| && SUPPORTED_PATHS[i] == p;
      SupportedRender(i);
      assert SUPPORTED[i] in SUPPORTED;
    }
  }

  /* ---------- the storage texts ---------- */

  ghost predicate IsStorePath(p: Path) { |p| >= 2 && p[0] == "deployment" && "storage_service" <= p[1] }

  lemma {:induction false} SplitFirst(s: string, t: string, seps: set<char>)
    requires FreeOf(s, seps)
    ensures Split(s + t, seps)[0] == s + Split(t, seps)[0]
  {
    if s == [] {
      assert s + t == t;
    } else {
      assert (s + t)[1..] == s[1..] + t;
      SplitFirst(s[1..], t, seps);
      assert Split(s + t, seps)[0] == [s[0]] + Split(s[1..] + t, seps)[0];
      assert [s[0]] + (s[1..] + Split(t, seps)[0]) == s + Split(t, seps)[0];
    }
  }

  lemma SplitPrefix(text: string, prefix: string, a: string, b: string)
    requires prefix <= text && prefix == a + "." + b && FreeOf(a, {'.'}) && FreeOf(b, {'.'})
    ensures var parts := Split(text, {'.'}); |parts| >= 2 && parts[0] == a && b <= parts[1]
  {
    var rest := text[|prefix|..];
    assert text == a + ['.'] + (b + rest);
    SplitAt(a, '.', b + rest, {'.'});
    SplitFree(a, {'.'});
    SplitFirst(b, rest, {'.'});
  }

  lemma StorePrefixParts()
    ensures STORE_PREFIX == "deployment" + "." + "storage_service"
    ensures FreeOf("deployment", {'.'}) && FreeOf("storage_service", {'.'})
  {
  }

  lemma StoreText(p: Path)
    requires HeadNamed(p) && IsStorePath(p)
    ensures IsStoreText(Render("", p))
  {
    RenderIsJoinOf(p);
    var rest := p[1..];
    assert Join(p, ".") == p[0] + "." + Join(rest, ".");
    assert rest[0] <= Join(rest, ".");
    assert STORE_PREFIX == "deployment" + "." + "storage_service";
  }

  lemma StorePathOf(p: Path)
    requires HeadNamed(p) && IsStoreText(Render("", p))
    ensures IsStorePath(p)
  {
    var q := Split(Render("", p), {'.'});
    StorePrefixParts();
    SplitPrefix(Render("", p), STORE_PREFIX, "deployment", "storage_service");
    SameFront(p, q, 1);
    FrontAt(p, q, 1, 0);
    if |p| > 1 {
      SameFront(p, q, 2);
      FrontAt(p, q, 2, 1);
    }
  }

  lemma StoreTextIff(p: Path)
    requires HeadNamed(p)
    ensures IsStoreText(Render("", p)) <==> IsStorePath(p)
  {
    if IsStorePath(p) { StoreText(p); }
    if IsStoreText(Render("", p)) { StorePathOf(p); }
  }

  /* ---------- the paths of a configuration diff ---------- */

  ghost predicate AreNames(fields: map<string, Yaml>) { forall k :: k in fields ==> IsName(k) }

  /** The structure fields that the planner does not name have plain names too. */
  ghost predicate PlainFieldNames(c: DeployConfig) {
    && AreNames(c.other) && AreNames(c.deployment.other)
    && (c.deployment.monitor.Some? ==>
          && AreNames(c.deployment.monitor.value.other)
          && (c.deployment.monitor.value.prometheus.Some? ==>
                AreNames(c.deployment.monitor.value.prometheus.value.other)))
  }

  lemma FieldNames()
    ensures IsName("deployment") && IsName("cluster_name") && IsName("version") && IsName("tx_service")
    ensures IsName("log_service")
    ensures IsName("storage_service") && IsName("monitor") && IsName("checkpointer_interval") && IsName("enable_tls")
    ensures IsName("cluster_mode") && IsName("prometheus")
    ensures IsName("retention_time") && IsName("retention_size") && IsName("remote_write_urls")
  {
  }

  lemma ConfigNames(c: DeployConfig)
    requires PlainFieldNames(c)
    ensures AreNames(ConfigFields(c))
  {
    FieldNames();
    forall k | k in ConfigFields(c) ensures IsName(k) { ConfigLookup(c, k); }
  }

  lemma DeploymentNames(c: DeployConfig)
    requires PlainFieldNames(c)
    ensures AreNames(DeploymentFields(c.deployment))
  {
    FieldNames();
    forall k | k in DeploymentFields(c.deployment) ensures IsName(k) {
      DeploymentLookup(c.deployment, k);
      PlainLookup(c.deployment, k);
    }
  }

  lemma MonitorNames(c: DeployConfig)
    requires PlainFieldNames(c) && c.deployment.monitor.Some?
    ensures AreNames(MonitorFields(c.deployment.monitor.value))
  {
    FieldNames();
    forall k | k in MonitorFields(c.deployment.monitor.value) ensures IsName(k) {
      MonitorLookup(c.deployment.monitor.value, k);
    }
  }

  lemma PrometheusNames(c: DeployConfig)
    requires PlainFieldNames(c) && PromOf(c).Some?
    ensures AreNames(PrometheusFields(PromOf(c).value))
  {
    FieldNames();
    forall k | k in PrometheusFields(PromOf(c).value) ensures IsName(k) { PrometheusLookup(PromOf(c).value, k); }
  }

  /** A reported path goes on below a key only if one of the mappings has the key. */
  lemma FirstKey(f: map<string, Yaml>, g: map<string, Yaml>, p: Path)
    requires p in Diff(Some(Mapping(f)), Some(Mapping(g))) && AreNames(f) && AreNames(g)
    ensures p != [] && IsName(p[0]) && p[1..] in Diff(Lookup(f, p[0]), Lookup(g, p[0]))
  {
    DiffMembers(f, g, p);
    DiffEmptyIffEqual(Lookup(f, p[0]), Lookup(g, p[0]));
  }

  lemma LeafPath(x: Option<Yaml>, y: Option<Yaml>, q: Path)
    requires q in Diff(x, y) && !BothMappings(x, y)
    ensures q == []
  {
  }

  lemma MonitorHead(c: DeployConfig, d: DeployConfig, q: Path)
    requires PlainFieldNames(c) && PlainFieldNames(d)
    requires q in Diff(MonitorYaml(c.deployment.monitor), MonitorYaml(d.deployment.monitor))
    ensures q != [] ==> IsName(q[0])
    ensures |q| > 1 && q[0] == "prometheus" ==> IsName(q[1])
  {
    if c.deployment.monitor.None? || d.deployment.monitor.None? {
      LeafPath(MonitorYaml(c.deployment.monitor), MonitorYaml(d.deployment.monitor), q);
    } else {
      var a, b := c.deployment.monitor.value, d.deployment.monitor.value;
      MonitorNames(c);
      MonitorNames(d);
      FirstKey(MonitorFields(a), MonitorFields(b), q);
      if q[0] == "prometheus" {
        MonitorLookup(a, q[0]);
        MonitorLookup(b, q[0]);
        PrometheusHead(c, d, q[1..]);
      }
    }
  }

  lemma PrometheusHead(c: DeployConfig, d: DeployConfig, q: Path)
    requires PlainFieldNames(c) && PlainFieldNames(d)
    requires q in Diff(PrometheusYaml(PromOf(c)), PrometheusYaml(PromOf(d)))
    ensures q != [] ==> IsName(q[0])
  {
    if PromOf(c).None? || PromOf(d).None? {
      LeafPath(PrometheusYaml(PromOf(c)), PrometheusYaml(PromOf(d)), q);
    } else {
      PrometheusNames(c);
      PrometheusNames(d);
      FirstKey(PrometheusFields(PromOf(c).value), PrometheusFields(PromOf(d).value), q);
    }
  }

  lemma DeploymentHead(c: DeployConfig, d: DeployConfig, q: Path)
    requires PlainFieldNames(c) && PlainFieldNames(d)
    requires q in Diff(Some(Mapping(DeploymentFields(c.deployment))), Some(Mapping(DeploymentFields(d.deployment))))
    ensures q != [] && IsName(q[0])
    ensures |q| > 1 && q[0] == "monitor" ==> IsName(q[1])
    ensures |q| > 2 && q[0] == "monitor" && q[1] == "prometheus" ==> IsName(q[2])
  {
    DeploymentNames(c);
    DeploymentNames(d);
    FirstKey(DeploymentFields(c.deployment), DeploymentFields(d.deployment), q);
    if q[0] == "monitor" {
      DeploymentLookup(c.deployment, q[0]);
      DeploymentLookup(d.deployment, q[0]);
      MonitorHead(c, d, q[1..]);
    }
  }

  /** Every path of the diff of two configurations names structure fields at its head. */
  lemma DiffIsHeadNamed(c: DeployConfig, d: DeployConfig, p: Path)
    requires PlainFieldNames(c) && PlainFieldNames(d) && p in Diff(ConfigYaml(c), ConfigYaml(d))
    ensures HeadNamed(p)
  {
    ConfigNames(c);
    ConfigNames(d);
    FirstKey(ConfigFields(c), ConfigFields(d), p);
    if p[0] == "deployment" {
      ConfigLookup(c, p[0]);
      ConfigLookup(d, p[0]);
      DeploymentHead(c, d, p[1..]);
    }
  }
}
