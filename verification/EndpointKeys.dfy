/**
 Which key a load reads beside which base URL (src/config/settings.rs): exactly when the deployment's key still reaches
 its endpoint, what replaces it otherwise, and what counts as the same endpoint.
 */
module EndpointKeys {
  import opened Wrappers
  import opened ConfigLayers
  import opened OverrideSpelling
  import opened EndpointBinding
  import T = Text

  // ---------- what counts as the same endpoint ----------

  predicate AllSlashes(s: string) {
    forall i :: 0 <= i < |s| ==> s[i] == '/'
  }

  lemma {:induction false} SlashesTrimmed(core: string, slashes: string)
    requires AllSlashes(slashes) && (core == "" || core[|core| - 1] != '/')
    ensures TrimEndSlashes(core + slashes) == core
  {
    if slashes == "" {
      assert core + slashes == core;
    } else {
      var most := slashes[..|slashes| - 1];
      SlashesTrimmed(core, most);
      assert (core + slashes)[..|core + slashes| - 1] == core + most;
    }
  }

  /**
   A spelling of `core` normalizes to `core`: white space around it, slashes at the end, and one version in either case
   make no difference, as long as `core` itself ends in no slash and, where nothing else is stripped, in no version.
   */
  lemma SpellingsOfOneEndpoint(lead: string, core: string, slashes: string, version: string, more: string, trail: string)
    requires T.Blank(lead) && T.Blank(trail) && AllSlashes(slashes) && AllSlashes(more)
    requires version in {"/v1", "/V1"} || (version == "" && !EndsWithVersion(core))
    requires core != "" && T.Trimmed(core) && core[|core| - 1] != '/'
    ensures NormalizeApiBase(lead + (core + slashes + version + more) + trail) == core
  {
    hide T.Trim, T.Trimmed, TrimEndSlashes;
    var spelled := core + slashes + version + more;
    EndsSolid(core, slashes, version, more);
    T.TrimOfPadded(lead, spelled, trail);
    if version == "" {
      assert core + slashes + version + more == core + (slashes + more);
      SlashesTrimmed(core, slashes + more);
      SlashesTrimmed(core, "");
      assert core + "" == core;
    } else {
      var versioned := core + slashes + version;
      assert spelled == versioned + more;
      SlashesTrimmed(versioned, more);
      assert versioned[|versioned| - 3..] == version;
      assert versioned[..|versioned| - 3] == core + slashes;
      SlashesTrimmed(core, slashes);
    }
  }

  lemma EndsSolid(core: string, slashes: string, version: string, more: string)
    requires AllSlashes(slashes) && AllSlashes(more) && version in {"", "/v1", "/V1"} && core != "" && T.Trimmed(core)
    ensures T.Trimmed(core + slashes + version + more)
  {
    var s := core + slashes + version + more;
    assert s[0] == core[0];
    if more != "" {
      assert s[|s| - 1] == more[|more| - 1];
    } else if version != "" {
      assert s[|s| - 1] == version[|version| - 1];
    } else if slashes != "" {
      assert s[|s| - 1] == slashes[|slashes| - 1];
    } else {
      assert s[|s| - 1] == core[|core| - 1];
    }
  }

  /** The override leaves the endpoint alone: no base URL, a blank one, or one spelling the deployment's own. */
  predicate StaysHome(config: Value, deployment: Value, basePath: Path) {
    match Lookup(config, basePath)
    case None => true
    case Some(v) =>
      var own := GetString(deployment, basePath).GetOr("");
      (v.Str? || v.Scalar?) && (T.Trim(v.text) == "" || (NormalizeApiBase(own) != "" && NormalizeApiBase(v.text) == NormalizeApiBase(own)))
  }

  /** The key stored in the override, white space around it removed; empty if there is none. */
  function StoredKey(config: Value, keyPath: Path): string {
    match Lookup(config, keyPath)
    case Some(Str(t)) => T.Trim(t)
    case Some(Scalar(t)) => T.Trim(t)
    case _ => ""
  }

  // ---------- what the key is overridden with ----------

  /**
   The key of an endpoint is overridden with the stored one exactly when there is an override, the environment does not
   set the base URL, and the section is refused or its base URL is not the deployment's; otherwise only the environment
   overrides it.
   */
  lemma KeyOverriddenExactly(lower: char -> char, parse: string -> Option<string>, deployment: Value, over: Option<RuntimeOverride>, env: Env, i: nat)
    requires i < |ENDPOINT_KEY_BINDINGS|
    ensures var b := ENDPOINT_KEY_BINDINGS[i];
            At(Loaded(lower, parse, deployment, over, env).overrides, b.keyPath) ==
            if over.Some? && EnvValue(env, b.baseEnv).None? &&
               (b.section in over.value.noncanonical || !StaysHome(over.value.config, deployment, b.basePath))
            then Some(StoredKey(over.value.config, b.keyPath))
            else EnvValue(env, b.keyEnv)
  {
    hide Moved, OwnKey, EnvValue, KeysBeside, Loaded, At, ENDPOINT_KEY_BINDINGS, ENV_KEY_MAP, StaysHome, StoredKey;
    BoundRows();
    var b := ENDPOINT_KEY_BINDINGS[i];
    LoadedAt(lower, parse, deployment, over, env, if i == 0 then 14 else 9);
    assert ENDPOINT_KEY_BINDINGS[0] != ENDPOINT_KEY_BINDINGS[1] by { TwoBindings(); }
    if over.Some? {
      MovedIsLeavingHome(over.value, deployment, env, b);
    }
  }

  lemma TwoBindings()
    ensures ENDPOINT_KEY_BINDINGS[0] ==
            Binding("gateway", ["gateway", "base_url"], ["gateway", "api_key"], "AGENT_OS_GATEWAY_BASE_URL", "AGENT_OS_GATEWAY_API_KEY")
    ensures ENDPOINT_KEY_BINDINGS[1] ==
            Binding("embedding", ["embedding", "oneapi", "base_url"], ["embedding", "oneapi", "api_key"],
                    "AGENT_OS_EMBEDDING_ONEAPI_BASE_URL", "AGENT_OS_EMBEDDING_ONEAPI_API_KEY")
    ensures ENDPOINT_KEY_BINDINGS[0] != ENDPOINT_KEY_BINDINGS[1]
  {
    assert "gateway"[0] != "embedding"[0];
  }

  lemma MovedIsLeavingHome(over: RuntimeOverride, deployment: Value, env: Env, b: Binding)
    ensures Moved(over, deployment, env, b) <==>
            EnvValue(env, b.baseEnv).None? && (b.section in over.noncanonical || !StaysHome(over.config, deployment, b.basePath))
    ensures OwnKey(over.config, b) == StoredKey(over.config, b.keyPath)
  {
    hide EnvValue, NormalizeApiBase, T.Trim;
    var base := GetString(over.config, b.basePath);
    if base.Some? {
      NormalizeIgnoresTrim(base.value);
    }
  }

  // ---------- what a load reads ----------

  lemma {:induction false} LegacyElsewhere(v: Value, settings: seq<Setting>, q: Path)
    requires forall s :: s in settings ==> Unrelated(s.path, q)
    ensures Lookup(Assigned(v, settings), q) == Lookup(v, q)
  {
    if settings != [] {
      var most, last := settings[..|settings| - 1], settings[|settings| - 1];
      assert settings == most + [last];
      LegacyElsewhere(v, most, q);
      LookupElsewhere(Assigned(v, most), last.path, last.value, q);
    }
  }

  /** Where the later layer has nothing at a path and no leaf above it, the earlier layer shows through. */
  lemma {:induction false} ShowsThrough(base: Value, over: Value, path: Path)
    requires Lookup(over, path).None? && forall n :: 0 <= n <= |path| && Lookup(over, path[..n]).Some? ==> Lookup(over, path[..n]).value.Table?
    ensures Lookup(Merged(base, over), path) == Lookup(base, path)
    decreases |path|
  {
    assert path != [];
    assert Lookup(over, path[..0]) == Some(over);
    if path[0] in over.entries {
      var below, rest := over.entries[path[0]], path[1..];
      forall n | 0 <= n <= |rest| && Lookup(below, rest[..n]).Some?
        ensures Lookup(below, rest[..n]).value.Table?
      {
        assert path[..n + 1][1..] == rest[..n] && path[..n + 1][0] == path[0];
        assert Lookup(over, path[..n + 1]) == Lookup(below, rest[..n]);
      }
      if base.Table? && path[0] in base.entries {
        ShowsThrough(base.entries[path[0]], below, rest);
      } else {
        assert Lookup(below, rest[..0]) == Some(below);
      }
    }
  }

  /**
   The deployment's key reaches its own endpoint: if the environment sets the base URL, or the section is accepted and
   leaves the endpoint alone, then the load reads the environment's key, and without one, unless a legacy variable hides
   it, the key of the merged layers. That is the deployment's if the override says nothing about it.
   */
  lemma KeyReachesItsEndpoint(lower: char -> char, parse: string -> Option<string>, deployment: Value, over: Option<RuntimeOverride>, env: Env,
                              variables: seq<Setting>, order: seq<Path>, i: nat)
    requires i < |ENDPOINT_KEY_BINDINGS| && deployment.Table?
    requires IsOrder(Loaded(lower, parse, deployment, over, env), variables, order)
    requires var b := ENDPOINT_KEY_BINDINGS[i];
             over.Some? && EnvValue(env, b.baseEnv).None? ==>
               b.section !in over.value.noncanonical && StaysHome(over.value.config, deployment, b.basePath)
    ensures var b := ENDPOINT_KEY_BINDINGS[i];
            var read := GetString(Built(Loaded(lower, parse, deployment, over, env), variables, order), b.keyPath);
            var keySet := EnvValue(env, b.keyEnv);
            (keySet.Some? ==> read == keySet) &&
            (keySet.None? && (forall s :: s in variables ==> !(s.path <= b.keyPath)) ==>
              read == GetString(if over.Some? then Merged(deployment, over.value.config) else deployment, b.keyPath) &&
              (over.Some? && SaysNothing(over.value.config, b.keyPath) ==> read == GetString(deployment, b.keyPath)))
  {
    hide EnvValue, KeysBeside, Built, Layered, IsOrder, At, GetString, ENDPOINT_KEY_BINDINGS, ENV_KEY_MAP, StaysHome, StoredKey, LegacySettings, EnvOverrides, BoundOverrides, Merged, Moved, OwnKey, EndsWithUnderscore;
    BoundRows();
    var b := ENDPOINT_KEY_BINDINGS[i];
    KeyOverriddenExactly(lower, parse, deployment, over, env, i);
    LoadedAt(lower, parse, deployment, over, env, if i == 0 then 14 else 9);
    LoadReadsAt(lower, parse, deployment, over, env, variables, order, b.keyPath);
    if EnvValue(env, b.keyEnv).None? && forall s :: s in variables ==> !(s.path <= b.keyPath) {
      TwoLayers(deployment, if over.Some? then over.value.config else deployment, b.keyPath);
      NothingSetReads(lower, parse, deployment, over, env, variables, order, b.keyPath);
      if over.Some? && SaysNothing(over.value.config, b.keyPath) {
        ThroughText(deployment, over.value.config, b.keyPath);
      }
    }
  }

  /** Nothing at the path, and no leaf above it. */
  predicate SaysNothing(config: Value, path: Path) {
    Lookup(config, path).None? && forall n :: 0 <= n <= |path| && Lookup(config, path[..n]).Some? ==> Lookup(config, path[..n]).value.Table?
  }

  lemma ThroughText(base: Value, over: Value, path: Path)
    requires SaysNothing(over, path)
    ensures GetString(Merged(base, over), path) == GetString(base, path)
  {
    ShowsThrough(base, over, path);
  }

  lemma NothingSetReads(lower: char -> char, parse: string -> Option<string>, deployment: Value, over: Option<RuntimeOverride>, env: Env,
                        variables: seq<Setting>, order: seq<Path>, q: Path)
    requires IsOrder(Loaded(lower, parse, deployment, over, env), variables, order) && EndsWithUnderscore(q)
    requires KeysBeside(Loaded(lower, parse, deployment, over, env).overrides, q) && At(Loaded(lower, parse, deployment, over, env).overrides, q).None?
    requires forall s :: s in variables ==> !(s.path <= q)
    ensures GetString(Built(Loaded(lower, parse, deployment, over, env), variables, order), q) ==
            GetString(Layered(Loaded(lower, parse, deployment, over, env).layers), q)
  {
    hide SetPath, Lookup, Layered, EnvOverrides, BoundOverrides, LegacySettings;
    var builder := Loaded(lower, parse, deployment, over, env);
    LegacyMissesPath(lower, parse, env, q);
    LegacyElsewhere(Layered(builder.layers), variables, q);
    OverridesApply(Assigned(Layered(builder.layers), variables), builder.overrides, order, q);
  }

  /** For instance an override that repeats the deployment's base URL, in an empty environment: the load reads the deployment's key. */
  lemma RepeatedBaseExample(lower: char -> char, parse: string -> Option<string>, order: seq<Path>, base: string, key: string)
    requires NormalizeApiBase(base) != ""
    requires var over := RuntimeOverride(OnlyBase(base), []);
             IsOrder(Loaded(lower, parse, BaseAndKey(base, key), Some(over), []), [], order)
    ensures var over := RuntimeOverride(OnlyBase(base), []);
            GetString(Built(Loaded(lower, parse, BaseAndKey(base, key), Some(over), []), [], order), ["gateway", "api_key"]) == Some(key)
  {
    hide Built, Loaded, IsOrder, LegacySettings, EnvOverrides, BoundOverrides, ENV_KEY_MAP, Merged, NormalizeApiBase, ENDPOINT_KEY_BINDINGS;
    BoundRows();
    TwoBindings();
    var deployment, config := BaseAndKey(base, key), OnlyBase(base);
    TwoSteps(deployment, "gateway", "base_url");
    TwoSteps(deployment, "gateway", "api_key");
    TwoSteps(config, "gateway", "base_url");
    TwoSteps(config, "gateway", "api_key");
    assert "base_url"[0] != "api_key"[0];
    KeyReachesItsEndpoint(lower, parse, deployment, Some(RuntimeOverride(config, [])), [], [], order, 0);
  }

  function OnlyBase(base: string): Value {
    Table(map["gateway" := Table(map["base_url" := Str(base)])])
  }

  function BaseAndKey(base: string, key: string): Value {
    Table(map["gateway" := Table(map["base_url" := Str(base), "api_key" := Str(key)])])
  }

  lemma TwoSteps(v: Value, a: string, b: string)
    requires v.Table? && a in v.entries && v.entries[a].Table?
    ensures Lookup(v, [a, b]) == if b in v.entries[a].entries then Some(v.entries[a].entries[b]) else None
    ensures [a, b][..0] == [] && [a, b][..1] == [a] && [a, b][..2] == [a, b]
    ensures Lookup(v, [a]) == Some(v.entries[a]) && Lookup(v, []) == Some(v)
  {
    assert [a, b][1..] == [b] && [b][1..] == [] && [a][1..] == [];
    assert Lookup(v.entries[a], [b]) == if b in v.entries[a].entries then Some(v.entries[a].entries[b]) else None;
  }

  // ---------- the environment ----------

  /** A name reads as the first value listed for it. */
  lemma {:induction false} EnvValueIsFirst(env: Env, name: string, value: string)
    ensures EnvValue(env, name) == Some(value) <==>
            exists i :: 0 <= i < |env| && env[i] == (name, value) && forall j :: 0 <= j < i ==> env[j].0 != name
    ensures EnvValue(env, name).None? <==> forall i :: 0 <= i < |env| ==> env[i].0 != name
  {
    if env != [] {
      EnvValueIsFirst(env[1..], name, value);
      assert forall i :: 0 < i < |env| ==> env[i] == env[1..][i - 1];
      if env[0].0 != name && EnvValue(env[1..], name) == Some(value) {
        var i :| 0 <= i < |env[1..]| && env[1..][i] == (name, value) && forall j :: 0 <= j < i ==> env[1..][j].0 != name;
        assert env[i + 1] == (name, value);
      }
      if env[0].0 != name && exists i :: 0 <= i < |env| && env[i] == (name, value) && forall j :: 0 <= j < i ==> env[j].0 != name {
        var i :| 0 <= i < |env| && env[i] == (name, value) && forall j :: 0 <= j < i ==> env[j].0 != name;
        assert env[1..][i - 1] == (name, value);
      }
    }
  }

  /** A legacy variable: named with the prefix, neither mapped to a setting nor read by the process itself. */
  predicate IsLegacy(name: string) {
    |name| >= 9 && name[..9] == "AGENT_OS_" && (forall i :: 0 <= i < |ENV_KEY_MAP| ==> ENV_KEY_MAP[i].name != name) && name !in PROCESS_ENV_VARS
  }

  /** The legacy variables are exactly these, each a setting at the path its lower-cased words spell. */
  lemma {:induction false} LegacyExactlyThese(lower: char -> char, parse: string -> Option<string>, env: Env, s: Setting)
    ensures s in LegacySettings(lower, parse, env) <==>
            exists i :: 0 <= i < |env| && IsLegacy(env[i].0) && s.path == Words(Lowered(lower, env[i].0[9..])) &&
              s.value == match parse(env[i].1) case Some(t) => Scalar(t) case None => Str(env[i].1)
  {
    hide ENV_KEY_MAP, Words, Lowered;
    if env != [] {
      LegacyExactlyThese(lower, parse, env[1..], s);
      assert forall i :: 0 < i < |env| ==> env[i] == env[1..][i - 1];
      assert (PREFIX <= env[0].0 && !IsMappedOrProcessVar(env[0].0)) == IsLegacy(env[0].0) by {
        assert PREFIX <= env[0].0 <==> |env[0].0| >= 9 && env[0].0[..9] == "AGENT_OS_";
      }
      hide PROCESS_ENV_VARS, IsLegacy;
      LegacyOneMore(lower, parse, env, s);
    }
  }

  lemma LegacyOneMore(lower: char -> char, parse: string -> Option<string>, env: Env, s: Setting)
    requires env != []
    ensures s in LegacySettings(lower, parse, env) <==>
            s in LegacySettings(lower, parse, env[1..]) ||
            (PREFIX <= env[0].0 && !IsMappedOrProcessVar(env[0].0) &&
             s == Setting(Words(Lowered(lower, env[0].0[9..])), LegacyValue(parse, env[0].1)))
  {
    hide Words, Lowered, IsMappedOrProcessVar;
  }

  /** Words are what stands between underscores and dots. */
  lemma {:induction false} WordsSplit(word: string, separator: char, rest: string)
    requires '_' !in word && '.' !in word && separator in {'_', '.'}
    ensures Words(word) == [word] && Words(word + [separator] + rest) == [word] + Words(rest)
  {
    var s := word + [separator] + rest;
    if word == "" {
      assert s[1..] == rest;
    } else {
      WordsSplit(word[1..], separator, rest);
      assert s[1..] == word[1..] + [separator] + rest;
      assert word == [word[0]] + word[1..];
    }
  }

  /** Every mapped variable that is set is what a load reads at its setting; for the two keys see `KeyOverriddenExactly`. */
  lemma MappedVariableWins(lower: char -> char, parse: string -> Option<string>, deployment: Value, over: Option<RuntimeOverride>, env: Env,
                           variables: seq<Setting>, order: seq<Path>, at: nat)
    requires at < |ENV_KEY_MAP| && at !in {9, 14} && IsOrder(Loaded(lower, parse, deployment, over, env), variables, order)
    requires EnvValue(env, ENV_KEY_MAP[at].name).Some?
    ensures GetString(Built(Loaded(lower, parse, deployment, over, env), variables, order), ENV_KEY_MAP[at].path) == EnvValue(env, ENV_KEY_MAP[at].name)
  {
    hide EnvValue, Loaded, Lookup, SetPath, Layered, Moved, ENV_KEY_MAP, ENDPOINT_KEY_BINDINGS;
    LoadedAt(lower, parse, deployment, over, env, at);
    var builder := Loaded(lower, parse, deployment, over, env);
    OverridesApply(Assigned(Layered(builder.layers), variables), builder.overrides, order, ENV_KEY_MAP[at].path);
  }
}
