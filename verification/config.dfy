/** Configuration (kb/config.py): the defaults, the preset-tag vocabulary,
    the environment overrides applied to the loaded YAML tree, and the
    provider lookup. Reading and writing files and the environment itself
    are outside the model; the YAML tree and the environment are values. */
module Config {
  import opened Outcomes
  import opened Strings
  import opened Seqs

  // ---------------------------------------------------------------------
  // Defaults

  datatype ProviderConfig = ProviderConfig(apiKey: string, baseUrl: Option<string>, model: string, enabled: bool)

  function Provider(model: string, baseUrl: Option<string>): ProviderConfig {
    ProviderConfig("", baseUrl, model, true)
  }

  /** `LLMConfig`: the default provider's name and the provider fields by name. */
  datatype LLMConfig = LLMConfig(defaultProvider: string, providers: map<string, ProviderConfig>)

  /** The provider fields `LLMConfig` declares. */
  const ProviderNames: set<string> := {"openai", "anthropic", "gemini", "deepseek", "kimi", "minimax", "glm"}

  const DefaultLLM: LLMConfig := LLMConfig("openai", map[
    "openai" := Provider("gpt-4o-mini", None),
    "anthropic" := Provider("claude-3-5-sonnet-20241022", None),
    "gemini" := Provider("gemini-1.5-flash", None),
    "deepseek" := Provider("deepseek-chat", Some("https://api.deepseek.com/v1")),
    "kimi" := Provider("moonshot-v1-8k", Some("https://api.moonshot.cn/v1")),
    "minimax" := Provider("abab6.5s-chat", Some("https://api.minimax.chat/v1")),
    "glm" := Provider("glm-4-flash", Some("https://open.bigmodel.cn/api/paas/v4"))
  ])

  datatype TagConfig = TagConfig(presets: seq<string>, allowNew: bool)

  const DefaultTags: TagConfig :=
    TagConfig(["AI", "Tools", "Article", "Tutorial", "Research", "Programming", "Product", "Design"], true)

  /** The default vocabulary has no repeats and the default provider is one
      of the declared providers. */
  lemma DefaultsWellFormed()
    ensures NoDup(DefaultTags.presets) && DefaultTags.allowNew
    ensures DefaultLLM.providers.Keys == ProviderNames
    ensures DefaultLLM.defaultProvider in DefaultLLM.providers
  {
  }

  // ---------------------------------------------------------------------
  // Preset vocabulary

  /** `add_preset_tag` on the vocabulary: append the tag unless present. */
  function AddPresetTag(presets: seq<string>, tag: string): (r: seq<string>)
    ensures tag in r
    ensures tag in presets ==> r == presets
    ensures tag !in presets ==> r == presets + [tag]
    ensures NoDup(presets) ==> NoDup(r)
    ensures forall t :: t in r <==> t in presets || t == tag
  {
    if tag in presets then presets else presets + [tag]
  }

  /** Adding the same tag twice is adding it once. */
  lemma AddPresetTagIdempotent(presets: seq<string>, tag: string)
    ensures AddPresetTag(AddPresetTag(presets, tag), tag) == AddPresetTag(presets, tag)
  {
  }

  // ---------------------------------------------------------------------
  // The YAML tree and the environment overrides

  /** A loaded YAML value: a string, a list of strings, or a mapping. */
  datatype Node = Str(s: string) | Strs(items: seq<string>) | Dict(entries: map<string, Node>)

  datatype ConfigError =
    | NotAMapping(key: string)         // `setdefault` reached a value that is not a dict
    | UnknownProvider(name: string)    // `get_provider_config`

  /** The value at a key path, if every step exists. */
  function Get(n: Node, path: seq<string>): Option<Node>
    decreases |path|
  {
    if |path| == 0 then Some(n)
    else match n
      case Dict(m) => if path[0] in m then Get(m[path[0]], path[1..]) else None
      case _ => None
  }

  /** `_set_nested(data, path, value)`: walk with `setdefault(key, {})`,
      then assign the last key. */
  function SetNested(data: Node, path: seq<string>, value: Node): (r: Result<Node, ConfigError>)
    requires |path| > 0
    ensures data.Dict? ==> (r.Success? ==> r.value.Dict?)
    ensures !data.Dict? ==> r.Failure?
    decreases |path|
  {
    match data
    case Dict(m) =>
      if |path| == 1 then Success(Dict(m[path[0] := value]))
      else
        var child := if path[0] in m then m[path[0]] else Dict(map[]);
        (match SetNested(child, path[1..], value)
         case Success(c) => Success(Dict(m[path[0] := c]))
         case Failure(e) => Failure(e))
    case _ => Failure(NotAMapping(path[0]))
  }

  /** After a successful `_set_nested` the path holds the value. */
  lemma {:induction false} SetNestedGet(data: Node, path: seq<string>, value: Node)
    requires |path| > 0 && SetNested(data, path, value).Success?
    ensures Get(SetNested(data, path, value).value, path) == Some(value)
    decreases |path|
  {
    if |path| > 1 {
      var m := data.entries;
      var child := if path[0] in m then m[path[0]] else Dict(map[]);
      SetNestedGet(child, path[1..], value);
    }
  }

  /** `SetNestedGet` for a call that may fail, usable inside a function. */
  lemma SetNestedGetIf(data: Node, path: seq<string>, value: Node)
    requires |path| > 0
    ensures SetNested(data, path, value).Success? ==> Get(SetNested(data, path, value).value, path) == Some(value)
  {
    if SetNested(data, path, value).Success? {
      SetNestedGet(data, path, value);
    }
  }

  /** Two key paths that part ways at some step. */
  predicate Diverge(p: seq<string>, q: seq<string>)
    decreases |p|
  {
    |p| > 0 && |q| > 0 && (p[0] != q[0] || Diverge(p[1..], q[1..]))
  }

  /** `_set_nested` leaves every path that parts ways with its own path alone. */
  lemma {:induction false} SetNestedOthers(data: Node, path: seq<string>, value: Node, q: seq<string>)
    requires |path| > 0 && SetNested(data, path, value).Success?
    requires Diverge(path, q)
    ensures Get(SetNested(data, path, value).value, q) == Get(data, q)
    decreases |path|
  {
    var m := data.entries;
    var r := SetNested(data, path, value).value;
    assert r.entries == m[path[0] := r.entries[path[0]]];
    if path[0] == q[0] {
      var child := if path[0] in m then m[path[0]] else Dict(map[]);
      SetNestedOthers(child, path[1..], value, q[1..]);
      if path[0] !in m {
        EmptyDictGet(q[1..]);
      }
    }
  }

  lemma EmptyDictGet(q: seq<string>)
    requires |q| > 0
    ensures Get(Dict(map[]), q) == None
  {
  }

  /** `env_mappings`, in order: the variable and the key path it sets. */
  const EnvMappings: seq<(string, seq<string>)> := [
    ("KB_TELEGRAM_BOT_TOKEN", ["telegram", "bot_token"]),
    ("KB_TELEGRAM_CHANNEL_ID", ["telegram", "channel_id"]),
    ("KB_LLM_PROVIDER", ["llm", "default_provider"]),
    ("OPENAI_API_KEY", ["llm", "openai", "api_key"]),
    ("ANTHROPIC_API_KEY", ["llm", "anthropic", "api_key"]),
    ("GEMINI_API_KEY", ["llm", "gemini", "api_key"]),
    ("DEEPSEEK_API_KEY", ["llm", "deepseek", "api_key"]),
    ("KIMI_API_KEY", ["llm", "kimi", "api_key"]),
    ("MINIMAX_API_KEY", ["llm", "minimax", "api_key"]),
    ("GLM_API_KEY", ["llm", "glm", "api_key"])
  ]

  /** The environment: a variable's value, or "" when unset. */
  type Env = string -> string

  /** The mappings loop of `_override_from_env` over `maps`, in order. */
  function ApplyMappings(data: Node, env: Env, maps: seq<(string, seq<string>)>): (r: Result<Node, ConfigError>)
    requires forall i :: 0 <= i < |maps| ==> |maps[i].1| > 0
    ensures (forall i :: 0 <= i < |maps| ==> env(maps[i].0) == "") ==> r == Success(data)
    decreases |maps|
  {
    if |maps| == 0 then Success(data)
    else
      var (v, path) := maps[|maps| - 1];
      var init := maps[..|maps| - 1];
      match ApplyMappings(data, env, init)
      case Failure(e) => Failure(e)
      case Success(d) => if env(v) != "" then SetNested(d, path, Str(env(v))) else Success(d)
  }

  /** A preset entry as the environment parser leaves it: non-empty, no
      space at either end (so already stripped), free of commas. */
  predicate CleanTag(t: string) {
    t != "" && !IsSpace(t[0]) && !IsSpace(t[|t| - 1]) && ',' !in t
  }

  /** `[t.strip() for t in value.split(",") if t.strip()]` */
  function ParsePresetTags(value: string): (r: seq<string>)
    ensures forall i :: 0 <= i < |r| ==> CleanTag(r[i])
  {
    KeepTrimmed(Split(value, ','))
  }

  function KeepTrimmed(parts: seq<string>): (r: seq<string>)
    requires forall i :: 0 <= i < |parts| ==> ',' !in parts[i]
    ensures forall i :: 0 <= i < |r| ==> CleanTag(r[i])
    ensures |r| <= |parts|
  {
    if |parts| == 0 then []
    else
      var t := Strip(parts[0]);
      StripClean(parts[0]);
      (if t != "" then [t] else []) + KeepTrimmed(parts[1..])
  }

  lemma StripClean(s: string)
    requires ',' !in s
    ensures Strip(s) != "" ==> CleanTag(Strip(s))
  {
    StripWithin(s);
  }

  /** Writing a list of clean tags comma-separated and parsing it back
      gives the list. */
  lemma ParsePresetTagsJoin(tags: seq<string>)
    requires |tags| > 0
    requires forall i :: 0 <= i < |tags| ==> CleanTag(tags[i])
    ensures ParsePresetTags(Join(tags, ",")) == tags
  {
    SplitJoin(tags, ',');
    KeepTrimmedClean(tags);
  }

  lemma {:induction false} KeepTrimmedClean(parts: seq<string>)
    requires forall i :: 0 <= i < |parts| ==> CleanTag(parts[i]) && ',' !in parts[i]
    ensures KeepTrimmed(parts) == parts
  {
    if |parts| > 0 {
      StripUnchanged(parts[0], IsSpace);
      KeepTrimmedClean(parts[1..]);
    }
  }

  /** Key paths that pairwise part ways: no mapping can overwrite another. */
  predicate Independent(maps: seq<(string, seq<string>)>) {
    forall i, j :: 0 <= i < j < |maps| ==> Diverge(maps[i].1, maps[j].1)
  }

  /** Every variable that is set ends up at its key path. */
  lemma {:induction false} ApplyMappingsSets(data: Node, env: Env, maps: seq<(string, seq<string>)>, i: nat)
    requires forall k :: 0 <= k < |maps| ==> |maps[k].1| > 0
    requires Independent(maps)
    requires ApplyMappings(data, env, maps).Success?
    requires i < |maps| && env(maps[i].0) != ""
    ensures Get(ApplyMappings(data, env, maps).value, maps[i].1) == Some(Str(env(maps[i].0)))
    decreases |maps|
  {
    var n := |maps| - 1;
    var init := maps[..n];
    var (v, path) := maps[n];
    assert forall k :: 0 <= k < |init| ==> init[k] == maps[k];
    var d := ApplyMappings(data, env, init).value;
    var r := ApplyMappings(data, env, maps);
    assert r == if env(v) != "" then SetNested(d, path, Str(env(v))) else Success(d);
    if i == n {
      SetNestedGet(d, path, Str(env(v)));
    } else {
      assert Independent(init);
      ApplyMappingsSets(data, env, init, i);
      if env(v) != "" {
        assert Diverge(maps[i].1, path);
        DivergeSymmetric(maps[i].1, path);
        SetNestedOthers(d, path, Str(env(v)), maps[i].1);
      }
    }
  }

  lemma {:induction false} DivergeSymmetric(p: seq<string>, q: seq<string>)
    requires Diverge(p, q)
    ensures Diverge(q, p)
    decreases |p|
  {
    if p[0] == q[0] {
      DivergeSymmetric(p[1..], q[1..]);
    }
  }

  /** Paths of two or more keys whose second keys differ part ways. */
  lemma DivergeAtSecond(p: seq<string>, q: seq<string>)
    requires |p| >= 2 && |q| >= 2 && p[1] != q[1]
    ensures Diverge(p, q)
  {
    if p[0] == q[0] {
      assert p[1..][0] != q[1..][0];
    }
  }

  /** The second keys of the variable table, in order. */
  const SecondKeys: seq<string> := ["bot_token", "channel_id", "default_provider", "openai",
    "anthropic", "gemini", "deepseek", "kimi", "minimax", "glm"]

  lemma SecondKeysTable()
    ensures |SecondKeys| == |EnvMappings|
    ensures forall k :: 0 <= k < |EnvMappings| ==> |EnvMappings[k].1| >= 2 && EnvMappings[k].1[1] == SecondKeys[k]
  {
  }

  lemma SecondKeysDistinct()
    ensures forall i, j :: 0 <= i < j < |SecondKeys| ==> SecondKeys[i] != SecondKeys[j]
  {
  }

  /** The variable table's key paths are pairwise independent. */
  lemma EnvMappingsIndependent()
    ensures forall k :: 0 <= k < |EnvMappings| ==> |EnvMappings[k].1| > 0
    ensures Independent(EnvMappings)
  {
    SecondKeysTable();
    SecondKeysDistinct();
    forall i, j | 0 <= i < j < |EnvMappings| ensures Diverge(EnvMappings[i].1, EnvMappings[j].1) {
      DivergeAtSecond(EnvMappings[i].1, EnvMappings[j].1);
    }
  }

  /** The `KB_PRESET_TAGS` step: replace `tags.presets` when the parsed
      list is non-empty. */
  function ApplyPresets(d: Node, value: string): (r: Result<Node, ConfigError>)
    ensures |ParsePresetTags(value)| == 0 ==> r == Success(d)
    ensures r.Success? && |ParsePresetTags(value)| > 0 ==>
              Get(r.value, ["tags", "presets"]) == Some(Strs(ParsePresetTags(value)))
    ensures !d.Dict? && |ParsePresetTags(value)| > 0 ==> r.Failure?
  {
    var tags := ParsePresetTags(value);
    if |tags| > 0 then
      SetNestedGetIf(d, ["tags", "presets"], Strs(tags));
      SetNested(d, ["tags", "presets"], Strs(tags))
    else Success(d)
  }

  /** The variable table of `_override_from_env`, applied in order; with
      none of its variables set the tree is unchanged. */
  function MapVariables(data: Node, env: Env): (r: Result<Node, ConfigError>)
    ensures (forall i :: 0 <= i < |EnvMappings| ==> env(EnvMappings[i].0) == "") ==> r == Success(data)
  {
    EnvMappingsIndependent();
    ApplyMappings(data, env, EnvMappings)
  }

  /** `_override_from_env(data)`: the variable table, then the preset
      list. With nothing set the tree comes back unchanged; a non-empty
      preset list ends up at `tags.presets`; a failure can only come from
      the variable table or from a tree whose `tags` is not a mapping. */
  function OverrideFromEnv(data: Node, env: Env): (r: Result<Node, ConfigError>)
    ensures ((forall i :: 0 <= i < |EnvMappings| ==> env(EnvMappings[i].0) == "")
             && |ParsePresetTags(env("KB_PRESET_TAGS"))| == 0) ==> r == Success(data)
    ensures r.Success? ==> MapVariables(data, env).Success?
    ensures r.Success? && |ParsePresetTags(env("KB_PRESET_TAGS"))| > 0 ==>
              Get(r.value, ["tags", "presets"]) == Some(Strs(ParsePresetTags(env("KB_PRESET_TAGS"))))
    ensures |ParsePresetTags(env("KB_PRESET_TAGS"))| == 0 ==> r == MapVariables(data, env)
  {
    match MapVariables(data, env)
    case Failure(e) => Failure(e)
    case Success(d) => ApplyPresets(d, env("KB_PRESET_TAGS"))
  }

  /** Every variable that is set is found at its key in the overridden
      tree: the preset step never touches the variable table's keys. */
  lemma OverrideSets(data: Node, env: Env, i: nat)
    requires OverrideFromEnv(data, env).Success?
    requires i < |EnvMappings| && env(EnvMappings[i].0) != ""
    ensures Get(OverrideFromEnv(data, env).value, EnvMappings[i].1) == Some(Str(env(EnvMappings[i].0)))
  {
    var path := EnvMappings[i].1;
    EnvMappingsIndependent();
    NoTagsKey(i);
    OverrideMappings(data, env, i);
    var d := MapVariables(data, env).value;
    assert OverrideFromEnv(data, env) == ApplyPresets(d, env("KB_PRESET_TAGS"));
    ApplyPresetsEffect(d, env("KB_PRESET_TAGS"), path);
  }

  /** No variable of the table writes under `tags`. */
  lemma NoTagsKey(i: nat)
    requires i < |EnvMappings|
    ensures Diverge(["tags", "presets"], EnvMappings[i].1)
  {
    var path := EnvMappings[i].1;
    assert |path| > 0 && path[0] != "tags";
  }

  /** A preset list with a non-empty entry replaces the configured one and
      leaves every other branch alone; one without leaves the tree as it is. */
  lemma ApplyPresetsEffect(d: Node, value: string, q: seq<string>)
    requires ApplyPresets(d, value).Success?
    ensures |ParsePresetTags(value)| > 0 ==>
              Get(ApplyPresets(d, value).value, ["tags", "presets"]) == Some(Strs(ParsePresetTags(value)))
    ensures |ParsePresetTags(value)| > 0 && Diverge(["tags", "presets"], q) ==>
              Get(ApplyPresets(d, value).value, q) == Get(d, q)
    ensures |ParsePresetTags(value)| == 0 ==> ApplyPresets(d, value) == Success(d)
  {
    var tags := ParsePresetTags(value);
    if |tags| > 0 {
      SetNestedGet(d, ["tags", "presets"], Strs(tags));
      if Diverge(["tags", "presets"], q) {
        SetNestedOthers(d, ["tags", "presets"], Strs(tags), q);
      }
    }
  }

  /** Every environment variable that is set reaches its configuration key
      before the preset step runs. */
  lemma OverrideMappings(data: Node, env: Env, i: nat)
    requires MapVariables(data, env).Success?
    requires i < |EnvMappings| && env(EnvMappings[i].0) != ""
    ensures Get(MapVariables(data, env).value, EnvMappings[i].1) == Some(Str(env(EnvMappings[i].0)))
  {
    EnvMappingsIndependent();
    ApplyMappingsSets(data, env, EnvMappings, i);
  }

  /** With none of the variables set, the tree is unchanged. */
  lemma OverrideNothing(data: Node, env: Env)
    requires forall v :: env(v) == ""
    ensures OverrideFromEnv(data, env) == Success(data)
  {
    EnvMappingsIndependent();
    assert Split("", ',') == [""];
  }

  // ---------------------------------------------------------------------
  // Provider lookup

  /** What `getattr(config.llm, name, None)` finds: a provider field, the
      `default_provider` string (not `None`, so accepted), or nothing. */
  datatype Attribute = ProviderField(cfg: ProviderConfig) | DefaultProviderField(value: string) | Missing

  function LLMAttribute(llm: LLMConfig, name: string): Attribute {
    if name in llm.providers then ProviderField(llm.providers[name])
    else if name == "default_provider" then DefaultProviderField(llm.defaultProvider)
    else Missing
  }

  /** `get_provider_config`: `provider or default_provider`, then the
      attribute of that name, failing when there is none. A declared
      provider answers with its own settings; any other name but
      `default_provider` fails with an error naming it. */
  function GetProviderConfig(llm: LLMConfig, provider: Option<string>): (r: Result<(string, Attribute), ConfigError>)
    ensures var name := if provider.Some? && provider.value != "" then provider.value else llm.defaultProvider;
            && (r.Success? <==> name in llm.providers || name == "default_provider")
            && (name in llm.providers ==> r == Success((name, ProviderField(llm.providers[name]))))
            && (r.Failure? ==> r == Failure(UnknownProvider(name)))
            && (r.Success? ==> r.value.0 == name)
  {
    var name := if provider.Some? && provider.value != "" then provider.value else llm.defaultProvider;
    match LLMAttribute(llm, name)
    case Missing => Failure(UnknownProvider(name))
    case a => Success((name, a))
  }

  /** Over the default configuration, a named provider is found exactly
      when it is one of the seven declared ones, or the empty name (which
      means the default), or the `default_provider` attribute. With no
      name, every configuration whose default is declared answers with
      that provider's settings. */
  lemma ProviderLookup(llm: LLMConfig, n: string)
    ensures GetProviderConfig(DefaultLLM, Some(n)).Success? <==>
              n == "" || n in ProviderNames || n == "default_provider"
    ensures llm.defaultProvider in llm.providers ==>
              GetProviderConfig(llm, None) == GetProviderConfig(llm, Some(""))
              == Success((llm.defaultProvider, ProviderField(llm.providers[llm.defaultProvider])))
  {
    DefaultsWellFormed();
  }

  /** With no provider named, the default configuration answers with the
      `openai` settings; an undeclared name fails. */
  lemma ProviderLookupExamples()
    ensures GetProviderConfig(DefaultLLM, None) == Success(("openai", ProviderField(Provider("gpt-4o-mini", None))))
    ensures GetProviderConfig(DefaultLLM, Some("")) == GetProviderConfig(DefaultLLM, None)
    ensures GetProviderConfig(DefaultLLM, Some("mistral")) == Failure(UnknownProvider("mistral"))
  {
  }
}
