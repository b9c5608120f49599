/**
 Keeping a deployment's API key away from endpoints the runtime override moved to
 (src/config/settings.rs, `builder_from_layers` and `bind_deployment_keys_to_their_endpoints`).
 */
module EndpointBinding {
  import opened Wrappers
  import opened ConfigLayers
  import opened OverrideSpelling
  import T = Text

  // ---------- endpoint spellings ----------

  function TrimEndSlashes(s: string): string {
    if s != "" && s[|s| - 1] == '/' then TrimEndSlashes(s[..|s| - 1]) else s
  }

  /** Ends in `/v1`, upper or lower case. */
  predicate EndsWithVersion(s: string) {
    |s| >= 3 && s[|s| - 3] == '/' && s[|s| - 2] in {'v', 'V'} && s[|s| - 1] == '1'
  }

  /** Surrounding white space, slashes at the end, and one trailing `/v1` do not distinguish endpoints. */
  function NormalizeApiBase(base: string): string {
    var t := TrimEndSlashes(T.Trim(base));
    TrimEndSlashes(if EndsWithVersion(t) then t[..|t| - 3] else t)
  }

  function NonBlank(value: Option<string>): Option<string> {
    if value.Some? && T.Trim(value.value) != "" then Some(T.Trim(value.value)) else None
  }

  lemma {:induction false} TrimEndSlashesShortens(s: string)
    ensures |TrimEndSlashes(s)| <= |s| && (TrimEndSlashes(s) == s <==> s == "" || s[|s| - 1] != '/')
    ensures TrimEndSlashes(s) <= s
  {
    if s != "" && s[|s| - 1] == '/' {
      TrimEndSlashesShortens(s[..|s| - 1]);
    }
  }

  /**
   Normalizing is not idempotent (only one `/v1` is stripped), and a spelling is its own normal form exactly when
   it has no white space around it and ends in neither a slash nor a version.
   */
  lemma NormalFormExactlyWhen(s: string)
    ensures NormalizeApiBase(s) == s <==> s == "" || (T.Trimmed(s) && s[|s| - 1] != '/' && !EndsWithVersion(s))
  {
    hide T.Trim, T.IsWhitespace, TrimEndSlashes;
    var before, after := T.TrimSplits(s);
    var trimmed := T.Trim(s);
    var t := TrimEndSlashes(trimmed);
    TrimEndSlashesShortens(trimmed);
    TrimEndSlashesShortens(if EndsWithVersion(t) then t[..|t| - 3] else t);
    if T.Trimmed(s) {
      T.TrimOfTrimmed(s);
    } else {
      assert trimmed != s;
      assert |s| == |before| + |trimmed| + |after|;
    }
  }

  /**
   Normalizing again changes nothing exactly when no white space, and under a stripped version no further version, is
   left at the end.
   */
  lemma NormalizeTwiceExactlyWhen(s: string)
    ensures var t := TrimEndSlashes(T.Trim(s));
            var core := if EndsWithVersion(t) then TrimEndSlashes(t[..|t| - 3]) else t;
            NormalizeApiBase(NormalizeApiBase(s)) == NormalizeApiBase(s) <==>
            core == "" || !(T.IsWhitespace(core[|core| - 1]) || (EndsWithVersion(t) && EndsWithVersion(core)))
  {
    var before, after := T.TrimSplits(s);
    var trimmed := T.Trim(s);
    var t := TrimEndSlashes(trimmed);
    var stripped := if EndsWithVersion(t) then t[..|t| - 3] else t;
    TrimEndSlashesShortens(trimmed);
    TrimEndSlashesShortens(stripped);
    EndsClear(trimmed);
    EndsClear(stripped);
    var core := TrimEndSlashes(stripped);
    assert core == NormalizeApiBase(s);
    assert core != "" ==> core[0] == trimmed[0];
    NormalFormExactlyWhen(core);
  }

  lemma {:induction false} EndsClear(s: string)
    ensures TrimEndSlashes(s) == "" || TrimEndSlashes(s)[|TrimEndSlashes(s)| - 1] != '/'
  {
    if s != "" && s[|s| - 1] == '/' {
      EndsClear(s[..|s| - 1]);
    }
  }

  lemma NormalizeTwiceExample()
    ensures NormalizeApiBase("a/v1/v1") == "a/v1"
    ensures NormalizeApiBase("a/v1") == "a"
  {
    assert T.Trimmed("a/v1/v1") && T.Trimmed("a/v1");
    T.TrimOfTrimmed("a/v1/v1");
    T.TrimOfTrimmed("a/v1");
    assert "a/v1/v1"[..4] == "a/v1" && "a/v1"[..1] == "a";
  }

  /** Trimming first makes no difference to the normal form. */
  lemma NormalizeIgnoresTrim(s: string)
    ensures NormalizeApiBase(T.Trim(s)) == NormalizeApiBase(s)
  {
    var before, after := T.TrimSplits(s);
    T.TrimOfTrimmed(T.Trim(s));
  }

  // ---------- the environment ----------

  type Env = seq<(string, string)>

  datatype Row = Row(name: string, path: Path)

  const ENV_KEY_MAP: seq<Row> := [
    Row("AGENT_OS_API_ENABLE_METRICS", ["api", "enable_metrics"]),
    Row("AGENT_OS_API_GRPC_ADDR", ["api", "grpc_addr"]),
    Row("AGENT_OS_API_HTTP_ADDR", ["api", "http_addr"]),
    Row("AGENT_OS_API_METRICS_PORT", ["api", "metrics_port"]),
    Row("AGENT_OS_EMBEDDING_ENABLED", ["embedding", "enabled"]),
    Row("AGENT_OS_EMBEDDING_FALLBACK_DIMENSION", ["embedding", "fallback", "dimension"]),
    Row("AGENT_OS_EMBEDDING_OLLAMA_BASE_URL", ["embedding", "ollama", "base_url"]),
    Row("AGENT_OS_EMBEDDING_OLLAMA_DIMENSION", ["embedding", "ollama", "dimension"]),
    Row("AGENT_OS_EMBEDDING_OLLAMA_MODEL", ["embedding", "ollama", "model"]),
    Row("AGENT_OS_EMBEDDING_ONEAPI_API_KEY", ["embedding", "oneapi", "api_key"]),
    Row("AGENT_OS_EMBEDDING_ONEAPI_BASE_URL", ["embedding", "oneapi", "base_url"]),
    Row("AGENT_OS_EMBEDDING_ONEAPI_DIMENSION", ["embedding", "oneapi", "dimension"]),
    Row("AGENT_OS_EMBEDDING_ONEAPI_MODEL", ["embedding", "oneapi", "model"]),
    Row("AGENT_OS_EMBEDDING_PROVIDER", ["embedding", "provider"]),
    Row("AGENT_OS_GATEWAY_API_KEY", ["gateway", "api_key"]),
    Row("AGENT_OS_GATEWAY_BASE_URL", ["gateway", "base_url"]),
    Row("AGENT_OS_GATEWAY_DEFAULT_MODEL", ["gateway", "default_model"]),
    Row("AGENT_OS_GATEWAY_MAX_RETRIES", ["gateway", "max_retries"]),
    Row("AGENT_OS_GATEWAY_RETRY_BASE_MS", ["gateway", "retry_base_ms"]),
    Row("AGENT_OS_GATEWAY_TIMEOUT_SECONDS", ["gateway", "timeout_seconds"]),
    Row("AGENT_OS_GATEWAY_USE_RESPONSES_API", ["gateway", "use_responses_api"]),
    Row("AGENT_OS_OUTPUT_DIRECTORY", ["output", "directory"])
  ]

  const PROCESS_ENV_VARS := [
    "AGENT_OS_ALLOW_DEFAULT_CONFIG", "AGENT_OS_APPROVAL_ENABLED", "AGENT_OS_APPROVAL_TIMEOUT",
    "AGENT_OS_CONCURRENCY", "AGENT_OS_CONFIG_PROFILE", "AGENT_OS_HTTP_PORT", "AGENT_OS_L0_PATH",
    "AGENT_OS_L1_MEMORY_MB", "AGENT_OS_L2_MEMORY_MB", "AGENT_OS_L3_MEMORY_MB", "AGENT_OS_QUEUE_PATH",
    "AGENT_OS_WORKSPACE_ROOT"
  ]

  const PREFIX := "AGENT_OS_"

  /** The first value the environment lists for a name. */
  function EnvValue(env: Env, name: string): Option<string> {
    if env == [] then None else if env[0].0 == name then Some(env[0].1) else EnvValue(env[1..], name)
  }

  predicate IsMappedOrProcessVar(name: string) {
    (exists i :: 0 <= i < |ENV_KEY_MAP| && ENV_KEY_MAP[i].name == name) || name in PROCESS_ENV_VARS
  }

  /** The words of a legacy variable name, split at `_` (and at `.`, which a path is split at anyway). */
  function Words(s: string): (r: Path)
    ensures |r| > 0
    ensures forall i :: 0 <= i < |r| ==> '_' !in r[i]
  {
    if s == "" then [""]
    else
      var rest := Words(s[1..]);
      if s[0] == '_' || s[0] == '.' then [""] + rest else [[s[0]] + rest[0]] + rest[1..]
  }

  /** `parse` reads booleans and numbers; anything else stays a string. */
  function LegacyValue(parse: string -> Option<string>, text: string): Value {
    match parse(text)
    case Some(t) => Scalar(t)
    case None => Str(text)
  }

  function LegacySettings(lower: char -> char, parse: string -> Option<string>, env: Env): (r: seq<Setting>)
    ensures forall s :: s in r ==> !s.value.Table? && forall i :: 0 <= i < |s.path| ==> '_' !in s.path[i]
  {
    if env == [] then [] else
      var (name, text) := env[0];
      (if PREFIX <= name && !IsMappedOrProcessVar(name)
       then [Setting(Words(Lowered(lower, name[|PREFIX|..])), LegacyValue(parse, text))] else []) +
      LegacySettings(lower, parse, env[1..])
  }

  // ---------- the builder ----------

  datatype Setting = Setting(path: Path, value: Value)

  /** Layers in the order they were added, then the legacy variables, then the explicit overrides. */
  datatype Builder = Builder(layers: seq<Value>, variables: seq<Setting>, overrides: map<Path, string>)

  datatype RuntimeOverride = RuntimeOverride(config: Value, noncanonical: seq<string>)

  function Layered(layers: seq<Value>): Value {
    if layers == [] then EmptyTable else Merged(Layered(layers[..|layers| - 1]), layers[|layers| - 1])
  }

  function Assigned(v: Value, settings: seq<Setting>): Value {
    if settings == [] then v else
      var last := settings[|settings| - 1];
      SetPath(Assigned(v, settings[..|settings| - 1]), last.path, last.value)
  }

  /** Variables and overrides both sit in hash tables, so they are applied in orders the builder does not fix. */
  ghost predicate IsOrder(builder: Builder, variables: seq<Setting>, order: seq<Path>) {
    (forall s :: s in variables ==> s in builder.variables) &&
    (forall p :: p in order <==> p in builder.overrides)
  }

  ghost function Built(builder: Builder, variables: seq<Setting>, order: seq<Path>): Value
    requires IsOrder(builder, variables, order)
  {
    WithOverrides(Assigned(Layered(builder.layers), variables), builder.overrides, order)
  }

  /** A legacy variable can hide a setting whose name has a `_`, but never give it a value. */
  lemma {:induction false} LegacyNeverAssigns(v: Value, settings: seq<Setting>, q: Path)
    requires forall s :: s in settings ==> !s.value.Table? && !(q <= s.path)
    ensures Lookup(Assigned(v, settings), q) in {None, Lookup(v, q)}
  {
    if settings != [] {
      var most, last := settings[..|settings| - 1], settings[|settings| - 1];
      assert settings == most + [last];
      LegacyNeverAssigns(v, most, q);
      var before := Assigned(v, most);
      if last.path <= q {
        BelowLeaf(before, last.path, last.value, q);
      } else {
        LookupElsewhere(before, last.path, last.value, q);
      }
    }
  }

  lemma {:induction false} BelowLeaf(v: Value, path: Path, leaf: Value, q: Path)
    requires path <= q && path != q && !leaf.Table?
    ensures Lookup(SetPath(v, path, leaf), q) == None
    decreases |path|
  {
    if path != [] {
      BelowLeaf(Child(v, path[0]), path[1..], leaf, q[1..]);
    }
  }

  // ---------- the bindings ----------

  datatype Binding = Binding(section: string, basePath: Path, keyPath: Path, baseEnv: string, keyEnv: string)

  const ENDPOINT_KEY_BINDINGS: seq<Binding> := [
    Binding("gateway", ["gateway", "base_url"], ["gateway", "api_key"],
            "AGENT_OS_GATEWAY_BASE_URL", "AGENT_OS_GATEWAY_API_KEY"),
    Binding("embedding", ["embedding", "oneapi", "base_url"], ["embedding", "oneapi", "api_key"],
            "AGENT_OS_EMBEDDING_ONEAPI_BASE_URL", "AGENT_OS_EMBEDDING_ONEAPI_API_KEY")
  ]

  /** The override's own key, or none. */
  function OwnKey(config: Value, b: Binding): string {
    NonBlank(GetString(config, b.keyPath)).GetOr("")
  }

  /** Present but not a string: a null, a list or a table. */
  predicate NonStringBase(config: Value, b: Binding) {
    var v := Lookup(config, b.basePath);
    v.Some? && (v.value.Nil? || v.value.Array? || v.value.Table?)
  }

  /** The override names a non-blank endpoint other than the deployment's. */
  predicate NamesAnotherEndpoint(config: Value, deployment: Value, b: Binding) {
    var base := NonBlank(GetString(config, b.basePath));
    var own := NormalizeApiBase(GetString(deployment, b.basePath).GetOr(""));
    base.Some? && (own == "" || own != NormalizeApiBase(base.value))
  }

  /** The deployment key must not be used with what the override leaves as the base URL. */
  predicate Moved(over: RuntimeOverride, deployment: Value, env: Env, b: Binding) {
    EnvValue(env, b.baseEnv).None? &&
    (b.section in over.noncanonical || NonStringBase(over.config, b) || NamesAnotherEndpoint(over.config, deployment, b))
  }

  function EnvOverrides(env: Env, rows: seq<Row>): map<Path, string> {
    if rows == [] then map[] else
      var before := EnvOverrides(env, rows[..|rows| - 1]);
      var last := rows[|rows| - 1];
      if EnvValue(env, last.name).Some? then before[last.path := EnvValue(env, last.name).value] else before
  }

  function BoundOverrides(overrides: map<Path, string>, over: RuntimeOverride, deployment: Value, env: Env, bindings: seq<Binding>)
    : map<Path, string>
  {
    if bindings == [] then overrides else
      var before := BoundOverrides(overrides, over, deployment, env, bindings[..|bindings| - 1]);
      var last := bindings[|bindings| - 1];
      if Moved(over, deployment, env, last) then before[last.keyPath := OwnKey(over.config, last)] else before
  }

  lemma BoundStep(overrides: map<Path, string>, over: RuntimeOverride, deployment: Value, env: Env, bindings: seq<Binding>, i: nat)
    requires i < |bindings|
    ensures BoundOverrides(overrides, over, deployment, env, bindings[..i + 1]) ==
            var before := BoundOverrides(overrides, over, deployment, env, bindings[..i]);
            if Moved(over, deployment, env, bindings[i]) then before[bindings[i].keyPath := OwnKey(over.config, bindings[i])] else before
    ensures BoundOverrides(overrides, over, deployment, env, []) == overrides
  {
    hide Moved, OwnKey;
    assert bindings[..i + 1][..i] == bindings[..i];
  }

  method BindDeploymentKeysToTheirEndpoints(builder: Builder, deployment: Value, runtimeOverride: Option<RuntimeOverride>, env: Env)
    returns (r: Builder)
    ensures r.layers == builder.layers && r.variables == builder.variables
    ensures r.overrides ==
            match runtimeOverride
            case None => builder.overrides
            case Some(over) => BoundOverrides(builder.overrides, over, deployment, env, ENDPOINT_KEY_BINDINGS)
  {
    r := builder;
    if runtimeOverride.None? {
      return;
    }
    var over := runtimeOverride.value;
    for i := 0 to |ENDPOINT_KEY_BINDINGS|
      invariant r.layers == builder.layers && r.variables == builder.variables
      invariant r.overrides == BoundOverrides(builder.overrides, over, deployment, env, ENDPOINT_KEY_BINDINGS[..i])
    {
      hide NormalizeApiBase, GetString, EnvValue, NonBlank, BoundOverrides, NonStringBase, ENDPOINT_KEY_BINDINGS;
      var b := ENDPOINT_KEY_BINDINGS[i];
      BoundStep(builder.overrides, over, deployment, env, ENDPOINT_KEY_BINDINGS, i);
      if EnvValue(env, b.baseEnv).Some? {
        continue;
      }
      var noncanonical := b.section in over.noncanonical;
      var nonString := NonStringBase(over.config, b);
      if !noncanonical && !nonString {
        var overrideBase := NonBlank(GetString(over.config, b.basePath));
        if overrideBase.None? {
          continue;
        }
        var deploymentBase := NormalizeApiBase(GetString(deployment, b.basePath).GetOr(""));
        if deploymentBase != "" && deploymentBase == NormalizeApiBase(overrideBase.value) {
          continue;
        }
      }
      var overrideKey := NonBlank(GetString(over.config, b.keyPath));
      var key := match overrideKey case Some(k) => k case None => "";
      r := r.(overrides := r.overrides[b.keyPath := key]);
    }
    assert ENDPOINT_KEY_BINDINGS[..|ENDPOINT_KEY_BINDINGS|] == ENDPOINT_KEY_BINDINGS;
  }

  lemma EnvStep(env: Env, rows: seq<Row>, i: nat)
    requires i < |rows|
    ensures EnvOverrides(env, rows[..i + 1]) ==
            var before := EnvOverrides(env, rows[..i]);
            var value := EnvValue(env, rows[i].name);
            if value.Some? then before[rows[i].path := value.value] else before
    ensures EnvOverrides(env, []) == map[]
  {
    assert rows[..i + 1][..i] == rows[..i];
  }

  method BuilderFromLayers(lower: char -> char, parse: string -> Option<string>, deployment: Value,
                           runtimeOverride: Option<RuntimeOverride>, env: Env)
    returns (builder: Builder)
    ensures builder == Loaded(lower, parse, deployment, runtimeOverride, env)
  {
    hide LegacySettings, EnvValue, EnvOverrides, BoundOverrides, ENV_KEY_MAP, ENDPOINT_KEY_BINDINGS;
    var layers := [deployment];
    if runtimeOverride.Some? {
      layers := layers + [runtimeOverride.value.config];
    }
    builder := Builder(layers, LegacySettings(lower, parse, env), map[]);
    BoundRows();
    EnvStep(env, ENV_KEY_MAP, 0);
    for i := 0 to |ENV_KEY_MAP|
      invariant builder.layers == layers && builder.variables == LegacySettings(lower, parse, env)
      invariant builder.overrides == EnvOverrides(env, ENV_KEY_MAP[..i])
    {
      EnvStep(env, ENV_KEY_MAP, i);
      var row := ENV_KEY_MAP[i];
      var value := EnvValue(env, row.name);
      if value.Some? {
        builder := builder.(overrides := builder.overrides[row.path := value.value]);
      }
    }
    assert ENV_KEY_MAP[..|ENV_KEY_MAP|] == ENV_KEY_MAP;
    builder := BindDeploymentKeysToTheirEndpoints(builder, deployment, runtimeOverride, env);
  }

  /** The builder a load ends up with. */
  function Loaded(lower: char -> char, parse: string -> Option<string>, deployment: Value,
                  runtimeOverride: Option<RuntimeOverride>, env: Env): Builder
  {
    var fromEnv := EnvOverrides(env, ENV_KEY_MAP);
    var variables := LegacySettings(lower, parse, env);
    match runtimeOverride
    case None => Builder([deployment], variables, fromEnv)
    case Some(over) =>
      Builder([deployment, over.config], variables, BoundOverrides(fromEnv, over, deployment, env, ENDPOINT_KEY_BINDINGS))
  }

  // ---------- the overrides of the mapped settings ----------

  /** Row 15 and 14 are the gateway's URL and key, rows 10 and 9 the embedding service's. */
  lemma BoundRows()
    ensures |ENDPOINT_KEY_BINDINGS| == 2 && |ENV_KEY_MAP| == 22
    ensures var b := ENDPOINT_KEY_BINDINGS[0];
            ENV_KEY_MAP[15] == Row(b.baseEnv, b.basePath) && ENV_KEY_MAP[14] == Row(b.keyEnv, b.keyPath)
    ensures var b := ENDPOINT_KEY_BINDINGS[1];
            ENV_KEY_MAP[10] == Row(b.baseEnv, b.basePath) && ENV_KEY_MAP[9] == Row(b.keyEnv, b.keyPath)
    ensures forall i :: 0 <= i < |ENDPOINT_KEY_BINDINGS| ==>
              EndsWithUnderscore(ENDPOINT_KEY_BINDINGS[i].basePath) && EndsWithUnderscore(ENDPOINT_KEY_BINDINGS[i].keyPath)
  {
    assert "base_url"[4] == '_' && "api_key"[3] == '_';
  }

  /** The last component of the path contains a `_`. */
  predicate EndsWithUnderscore(path: Path) {
    path != [] && '_' in path[|path| - 1]
  }

  lemma RowsApart(i: nat, at: nat)
    requires i < |ENV_KEY_MAP| && at < |ENV_KEY_MAP| && i != at
    ensures Unrelated(ENV_KEY_MAP[i].path, ENV_KEY_MAP[at].path) && ENV_KEY_MAP[i].path != ENV_KEY_MAP[at].path
  {
    if at < i {
      LaterRowApart(at, i);
    } else {
      LaterRowApart(i, at);
    }
  }

  lemma LaterRowApart(i: nat, at: nat)
    requires i < at < |ENV_KEY_MAP|
    ensures Unrelated(ENV_KEY_MAP[i].path, ENV_KEY_MAP[at].path)
  {
    var p, q := ENV_KEY_MAP[i].path, ENV_KEY_MAP[at].path;
    if p[0] == q[0] {
      assert p[1] != q[1] || p[2] != q[2];
    }
  }

  /** Every key of `m` is `q` itself or on another branch. */
  predicate KeysBeside(m: map<Path, string>, q: Path) {
    forall p :: p in m ==> p == q || Unrelated(p, q)
  }

  function At(m: map<Path, string>, q: Path): Option<string> {
    if q in m then Some(m[q]) else None
  }

  lemma {:induction false} EnvOverridesAt(env: Env, n: nat, at: nat)
    requires n <= |ENV_KEY_MAP| && at < |ENV_KEY_MAP|
    ensures var q := ENV_KEY_MAP[at].path;
            var m := EnvOverrides(env, ENV_KEY_MAP[..n]);
            KeysBeside(m, q) && At(m, q) == if at < n then EnvValue(env, ENV_KEY_MAP[at].name) else None
  {
    hide EnvValue, Unrelated, ENV_KEY_MAP;
    if n > 0 {
      assert ENV_KEY_MAP[..n][..n - 1] == ENV_KEY_MAP[..n - 1];
      EnvOverridesAt(env, n - 1, at);
      if n - 1 != at {
        RowsApart(n - 1, at);
      }
    }
  }

  lemma EveryEnvOverrideAt(env: Env, at: nat)
    requires at < |ENV_KEY_MAP|
    ensures var q := ENV_KEY_MAP[at].path;
            var m := EnvOverrides(env, ENV_KEY_MAP);
            KeysBeside(m, q) && At(m, q) == EnvValue(env, ENV_KEY_MAP[at].name)
  {
    hide *;
    BoundRows();
    EnvOverridesAt(env, |ENV_KEY_MAP|, at);
    assert ENV_KEY_MAP[..|ENV_KEY_MAP|] == ENV_KEY_MAP;
  }

  /** What a mapped setting is overridden with: the environment's value, and for a moved endpoint the override's own key. */
  lemma BoundAt(fromEnv: map<Path, string>, over: RuntimeOverride, deployment: Value, env: Env, at: nat)
    requires at < |ENV_KEY_MAP|
    requires KeysBeside(fromEnv, ENV_KEY_MAP[at].path)
    ensures var q := ENV_KEY_MAP[at].path;
            var m := BoundOverrides(fromEnv, over, deployment, env, ENDPOINT_KEY_BINDINGS);
            KeysBeside(m, q) &&
            At(m, q) ==
            if at == 14 && Moved(over, deployment, env, ENDPOINT_KEY_BINDINGS[0]) then Some(OwnKey(over.config, ENDPOINT_KEY_BINDINGS[0]))
            else if at == 9 && Moved(over, deployment, env, ENDPOINT_KEY_BINDINGS[1]) then Some(OwnKey(over.config, ENDPOINT_KEY_BINDINGS[1]))
            else At(fromEnv, q)
  {
    hide Moved, OwnKey, BoundOverrides, Unrelated, ENDPOINT_KEY_BINDINGS, ENV_KEY_MAP;
    BoundRows();
    var bs := ENDPOINT_KEY_BINDINGS;
    BoundStep(fromEnv, over, deployment, env, bs, 0);
    BoundStep(fromEnv, over, deployment, env, bs, 1);
    assert bs[..0] == [] && bs[..2] == bs;
    if at != 14 {
      RowsApart(14, at);
    }
    if at != 9 {
      RowsApart(9, at);
    }
  }

  // ---------- the merged configuration ----------

  lemma BuiltReads(builder: Builder, variables: seq<Setting>, order: seq<Path>, q: Path)
    requires IsOrder(builder, variables, order) && KeysBeside(builder.overrides, q)
    requires forall s :: s in builder.variables ==> !s.value.Table? && !(q <= s.path)
    ensures q in builder.overrides ==> GetString(Built(builder, variables, order), q) == Some(builder.overrides[q])
    ensures q !in builder.overrides ==>
              GetString(Built(builder, variables, order), q) in {None, GetString(Layered(builder.layers), q)}
  {
    hide SetPath, Lookup, Layered, Unrelated;
    var v := Assigned(Layered(builder.layers), variables);
    LegacyNeverAssigns(Layered(builder.layers), variables, q);
    OverridesApply(v, builder.overrides, order, q);
  }

  lemma LegacyMissesPath(lower: char -> char, parse: string -> Option<string>, env: Env, q: Path)
    requires EndsWithUnderscore(q)
    ensures forall s :: s in LegacySettings(lower, parse, env) ==> !s.value.Table? && !(q <= s.path)
  {
    hide LegacySettings;
    forall s | s in LegacySettings(lower, parse, env)
      ensures !(q <= s.path)
    {
      assert |q| <= |s.path| ==> s.path[|q| - 1] != q[|q| - 1];
    }
  }

  /** The text two layers merge to. */
  lemma TwoLayers(deployment: Value, config: Value, q: Path)
    requires deployment.Table?
    ensures Layered([deployment]) == deployment
    ensures Layered([deployment, config]) == Merged(deployment, config)
  {
    assert Merged(EmptyTable, deployment).entries == deployment.entries;
    assert [deployment][..0] == [] && [deployment, config][..1] == [deployment];
    assert Layered([]) == EmptyTable;
  }

  /** The override a load ends up with for one of the mapped settings. */
  lemma LoadedAt(lower: char -> char, parse: string -> Option<string>, deployment: Value, over: Option<RuntimeOverride>, env: Env, at: nat)
    requires at < |ENV_KEY_MAP|
    ensures var q := ENV_KEY_MAP[at].path;
            var m := Loaded(lower, parse, deployment, over, env).overrides;
            KeysBeside(m, q) &&
            At(m, q) ==
            if over.Some? && at == 14 && Moved(over.value, deployment, env, ENDPOINT_KEY_BINDINGS[0]) then Some(OwnKey(over.value.config, ENDPOINT_KEY_BINDINGS[0]))
            else if over.Some? && at == 9 && Moved(over.value, deployment, env, ENDPOINT_KEY_BINDINGS[1]) then Some(OwnKey(over.value.config, ENDPOINT_KEY_BINDINGS[1]))
            else EnvValue(env, ENV_KEY_MAP[at].name)
  {
    hide Moved, OwnKey, EnvValue, KeysBeside, BoundOverrides, EnvOverrides, LegacySettings, ENDPOINT_KEY_BINDINGS, ENV_KEY_MAP, At;
    EveryEnvOverrideAt(env, at);
    if over.Some? {
      BoundAt(EnvOverrides(env, ENV_KEY_MAP), over.value, deployment, env, at);
    }
  }

  /** The text a finished load reads at `q`, given the override for it. */
  lemma LoadReadsAt(lower: char -> char, parse: string -> Option<string>, deployment: Value, over: Option<RuntimeOverride>, env: Env,
                    variables: seq<Setting>, order: seq<Path>, q: Path)
    requires IsOrder(Loaded(lower, parse, deployment, over, env), variables, order)
    requires KeysBeside(Loaded(lower, parse, deployment, over, env).overrides, q)
    requires EndsWithUnderscore(q)
    ensures var builder := Loaded(lower, parse, deployment, over, env);
            var read := GetString(Built(builder, variables, order), q);
            var fixed := At(builder.overrides, q);
            if fixed.Some? then read == fixed else read in {None, GetString(Layered(builder.layers), q)}
  {
    hide EnvOverrides, BoundOverrides, LegacySettings, Built, Layered, IsOrder, KeysBeside;
    LegacyMissesPath(lower, parse, env, q);
    BuiltReads(Loaded(lower, parse, deployment, over, env), variables, order, q);
  }

  /** The strings a finished load reads for one binding, given what the layers say. */
  lemma LoadReads(lower: char -> char, parse: string -> Option<string>, deployment: Value, over: Option<RuntimeOverride>, env: Env,
                  variables: seq<Setting>, order: seq<Path>, i: nat)
    requires i < |ENDPOINT_KEY_BINDINGS|
    requires IsOrder(Loaded(lower, parse, deployment, over, env), variables, order)
    ensures var b := ENDPOINT_KEY_BINDINGS[i];
            var builder := Loaded(lower, parse, deployment, over, env);
            var final := Built(builder, variables, order);
            var baseSet, keySet := EnvValue(env, b.baseEnv), EnvValue(env, b.keyEnv);
            (if baseSet.Some? then GetString(final, b.basePath) == baseSet
             else GetString(final, b.basePath) in {None, GetString(Layered(builder.layers), b.basePath)}) &&
            (if over.Some? && Moved(over.value, deployment, env, b) then GetString(final, b.keyPath) == Some(OwnKey(over.value.config, b))
             else if keySet.Some? then GetString(final, b.keyPath) == keySet
             else GetString(final, b.keyPath) in {None, GetString(Layered(builder.layers), b.keyPath)})
  {
    hide Moved, OwnKey, EnvValue, KeysBeside, Loaded, Built, Layered, IsOrder, At, GetString, ENDPOINT_KEY_BINDINGS, ENV_KEY_MAP;
    BoundRows();
    var b := ENDPOINT_KEY_BINDINGS[i];
    LoadedAt(lower, parse, deployment, over, env, if i == 0 then 15 else 10);
    LoadedAt(lower, parse, deployment, over, env, if i == 0 then 14 else 9);
    LoadReadsAt(lower, parse, deployment, over, env, variables, order, b.basePath);
    LoadReadsAt(lower, parse, deployment, over, env, variables, order, b.keyPath);
  }

  /** The endpoint the deployment itself names: its environment before its file. */
  function HomeBase(deployment: Value, env: Env, b: Binding): string {
    EnvValue(env, b.baseEnv).GetOr(GetString(deployment, b.basePath).GetOr(""))
  }

  /**
   Whatever the layers, the environment, and the order the override's keys folded in (any `config` and any verdict of
   the spelling check): a load whose base URL is not blank and not the deployment's endpoint carries no deployment
   key, only the key stored in the override itself, or an empty one.
   */
  lemma DeploymentKeyStaysWithItsEndpoint(
      lower: char -> char, parse: string -> Option<string>, deployment: Value, over: Option<RuntimeOverride>, env: Env,
      variables: seq<Setting>, order: seq<Path>, i: nat)
    requires i < |ENDPOINT_KEY_BINDINGS| && deployment.Table?
    requires IsOrder(Loaded(lower, parse, deployment, over, env), variables, order)
    ensures var b := ENDPOINT_KEY_BINDINGS[i];
            var final := Built(Loaded(lower, parse, deployment, over, env), variables, order);
            var base := GetString(final, b.basePath);
            base.Some? && T.Trim(base.value) != "" &&
            NormalizeApiBase(base.value) != NormalizeApiBase(HomeBase(deployment, env, b)) ==>
              over.Some? && GetString(final, b.keyPath) == Some(OwnKey(over.value.config, b))
  {
    hide OwnKey, EnvValue, Built, Layered, IsOrder, GetString, NormalizeApiBase, ENDPOINT_KEY_BINDINGS, Merged, BoundOverrides, EnvOverrides, LegacySettings;
    var b := ENDPOINT_KEY_BINDINGS[i];
    LoadReads(lower, parse, deployment, over, env, variables, order, i);
    match over
    case None =>
      TwoLayers(deployment, EmptyTable, b.basePath);
    case Some(o) =>
      TwoLayers(deployment, o.config, b.basePath);
      TextMerged(deployment, o.config, b.basePath);
      if EnvValue(env, b.baseEnv).None? && !Moved(o, deployment, env, b) {
        LeavingHomeIsMoving(o, deployment, env, b);
      }
  }

  /** The test the binding makes catches every override whose base URL would show through. */
  lemma LeavingHomeIsMoving(over: RuntimeOverride, deployment: Value, env: Env, b: Binding)
    requires EnvValue(env, b.baseEnv).None? && !Moved(over, deployment, env, b)
    ensures var base := GetString(over.config, b.basePath);
            base.Some? && T.Trim(base.value) != "" ==>
              NormalizeApiBase(base.value) == NormalizeApiBase(GetString(deployment, b.basePath).GetOr(""))
    ensures GetString(over.config, b.basePath).None? ==> Lookup(over.config, b.basePath).None?
  {
    var base := GetString(over.config, b.basePath);
    if base.Some? {
      NormalizeIgnoresTrim(base.value);
    }
  }

  /**
   Once the check has accepted a section, every load reads the same base URL and the same key from the override,
   whatever the order it lists the keys in.
   */
  lemma AcceptedSectionLoadsAlike(lower: char -> char, xs: seq<Entry>, ys: seq<Entry>, i: nat)
    requires i < |ENDPOINT_KEY_BINDINGS|
    requires SameJson(RawObject(xs), RawObject(ys)) && DistinctKeys(RawObject(xs)) && DistinctKeys(RawObject(ys))
    requires SectionIsCanonical(lower, xs, ENDPOINT_KEY_BINDINGS[i].section)
    ensures var b := ENDPOINT_KEY_BINDINGS[i];
            GetString(FoldedFile(lower, xs), b.basePath) == GetString(FoldedFile(lower, ys), b.basePath) &&
            GetString(FoldedFile(lower, xs), b.keyPath) == GetString(FoldedFile(lower, ys), b.keyPath)
  {
    hide SameJson, DistinctKeys, SectionIsCanonical, GetString, FoldedFile;
    var b := ENDPOINT_KEY_BINDINGS[i];
    assert b.basePath == [b.section] + b.basePath[1..] && b.keyPath == [b.section] + b.keyPath[1..];
    assert |b.basePath[1][0..]| != |"model_mapping"| && |b.keyPath[1][0..]| != |"model_mapping"|;
    FoldOrderIsIrrelevant(lower, xs, ys, b.section, b.basePath[1..]);
    FoldOrderIsIrrelevant(lower, xs, ys, b.section, b.keyPath[1..]);
  }

  /** Without the check, two spellings of one key make the base URL depend on the order they fold in. */
  lemma TwoSpellingsExample(lower: char -> char)
    requires lower('B') == 'b' && lower('b') == 'b'
    ensures var first, second := Entry("B", RawStr("x")), Entry("b", RawStr("y"));
            GetString(Folded(lower, EmptyTable, RawObject([first, second])), ["b"]) == Some("y") &&
            GetString(Folded(lower, EmptyTable, RawObject([second, first])), ["b"]) == Some("x") &&
            !KeysAreCanonical(lower, "gateway", RawObject([first, second]), 0)
  {
    assert Lowered(lower, "B") == "b" && Lowered(lower, "b") == "b";
    FoldedPair(lower, Entry("B", RawStr("x")), Entry("b", RawStr("y")));
    FoldedPair(lower, Entry("b", RawStr("y")), Entry("B", RawStr("x")));
    assert RawObject([Entry("B", RawStr("x")), Entry("b", RawStr("y"))]).entries[0].key == "B";
    assert "B"[0] != "b"[0];
  }

  lemma FoldedPair(lower: char -> char, e: Entry, f: Entry)
    requires Lowered(lower, e.key) == Lowered(lower, f.key) == "b" && f.value.RawStr?
    ensures GetString(Folded(lower, EmptyTable, RawObject([e, f])), ["b"]) == Some(f.value.text)
  {
    assert [e, f][..1] == [e];
    var before := FoldedEntries(lower, EmptyTable, [e]);
    assert FoldedEntries(lower, EmptyTable, [e, f]) == Table(Entries(before)["b" := Folded(lower, Child(before, "b"), f.value)]);
    var folded := Folded(lower, EmptyTable, RawObject([e, f]));
    assert folded == FoldedEntries(lower, EmptyTable, [e, f]);
    assert Lookup(folded, ["b"]) == Lookup(Str(f.value.text), []);
  }
}
