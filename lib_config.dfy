/**
 * The SDK's configuration store (src/lib/config.ts): a process-wide single
 * instance that loads the config file once, hands the stored credentials to
 * the API settings, and validates every update before storing and writing it.
 * The file's location and the JSON/URL checks are parameters.
 */
module LibConfig {
  import opened Wrappers
  import opened Json
  import opened OpenApi
  import opened ConfigFormat

  /** The six `auth` fields of the SDK's config file. */
  const LibAuthSchema: AuthSchema := [
    ("apiKey", StringField), ("apiKeyId", StringField), ("apiKeyName", StringField),
    ("baseUrl", UrlField), ("teamId", NumberField), ("teamSlug", StringField)
  ]

  /** A string field of a stored record (`""` if absent, which a valid record rules out). */
  function AuthText(a: AuthRecord, key: string): string {
    if key in a && a[key].JStr? then a[key].s else ""
  }

  class Config {
    var config: ConfigData
    /** What `update` wrote to the config file, oldest first. */
    var writes: seq<ConfigData>
    const isUrl: string -> bool

    ghost predicate Valid()
      reads this
    {
      ValidConfig(config, LibAuthSchema, isUrl)
    }

    constructor(loaded: ConfigData, isUrl: string -> bool)
      requires ValidConfig(loaded, LibAuthSchema, isUrl)
      ensures config == loaded && writes == [] && this.isUrl == isUrl && Valid()
    {
      config := loaded;
      writes := [];
      this.isUrl := isUrl;
    }

    /** The `auth` getter; a datatype value, so the caller holds a copy. */
    function Auth(): Option<AuthRecord>
      reads this
    {
      config.auth
    }

    /** The `config` getter. */
    function Current(): ConfigData
      reads this
    {
      config
    }

    /**
     * `update`: merge into a copy, validate, then store and write. A rejected
     * update leaves both the stored configuration and the file untouched.
     */
    method Update(patch: AuthPatch) returns (r: Result<(), string>)
      requires Valid()
      modifies this
      ensures Valid()
      ensures UpdatedConfig(old(config), patch, LibAuthSchema, isUrl).Err? ==>
        r.Err? && config == old(config) && writes == old(writes)
      ensures UpdatedConfig(old(config), patch, LibAuthSchema, isUrl).Ok? ==>
        r.Ok? && config == UpdatedConfig(old(config), patch, LibAuthSchema, isUrl).value &&
        writes == old(writes) + [config]
    {
      var updated := UpdatedConfig(config, patch, LibAuthSchema, isUrl);
      if updated.Err? {
        return Err(updated.error);
      }
      config := updated.value;
      writes := writes + [config];
      r := Ok(());
    }
  }

  /** Holds `Config.instance`, the static slot of the single instance. */
  class ConfigRegistry {
    var instance: Option<Config>

    constructor()
      ensures instance == None
    {
      instance := None;
    }

    /**
     * `new Config()`: the first construction loads the file and, when it holds
     * credentials, copies them into the API settings; every later construction
     * returns that first instance and changes nothing.
     */
    method Construct(api: OpenApiConfig, contents: Option<string>, parseJson: string -> Option<Json>,
                     isUrl: string -> bool)
      returns (c: Config)
      modifies this, api
      ensures old(instance).Some? ==>
        c == old(instance).value && instance == old(instance) &&
        api.base == old(api.base) && api.token == old(api.token)
      ensures old(instance).None? ==>
        fresh(c) && instance == Some(c) && c.Valid() && c.writes == [] &&
        c.config == LoadConfig(contents, parseJson, LibAuthSchema, isUrl)
      ensures old(instance).None? && c.config.auth.Some? ==>
        api.base == AuthText(c.config.auth.value, "baseUrl") &&
        api.token == Str(AuthText(c.config.auth.value, "apiKey"))
      ensures old(instance).None? && c.config.auth.None? ==>
        api.base == old(api.base) && api.token == old(api.token)
    {
      if instance.Some? {
        return instance.value;
      }
      var loaded := LoadConfig(contents, parseJson, LibAuthSchema, isUrl);
      c := new Config(loaded, isUrl);
      instance := Some(c);
      if loaded.auth.Some? {
        api.base := AuthText(loaded.auth.value, "baseUrl");
        api.token := Str(AuthText(loaded.auth.value, "apiKey"));
      }
    }
  }

  /** Stored credentials have exactly the six fields, with a URL base and a numeric team id. */
  lemma StoredAuthShape(c: ConfigData, isUrl: string -> bool)
    requires ValidConfig(c, LibAuthSchema, isUrl) && c.auth.Some?
    ensures c.auth.value.Keys == {"apiKey", "apiKeyId", "apiKeyName", "baseUrl", "teamId", "teamSlug"}
    ensures c.auth.value["baseUrl"].JStr? && isUrl(c.auth.value["baseUrl"].s)
    ensures c.auth.value["teamId"].JNum?
  {
    var a := c.auth.value;
    var names := {"apiKey", "apiKeyId", "apiKeyName", "baseUrl", "teamId", "teamSlug"};
    forall k | k in a ensures k in names {
      assert InSchema(LibAuthSchema, k);
    }
    assert LibAuthSchema[0].0 in a && LibAuthSchema[1].0 in a && LibAuthSchema[2].0 in a;
    assert LibAuthSchema[3].0 in a && LibAuthSchema[4].0 in a && LibAuthSchema[5].0 in a;
    assert FieldValid(a[LibAuthSchema[3].0], LibAuthSchema[3].1, isUrl);
    assert FieldValid(a[LibAuthSchema[4].0], LibAuthSchema[4].1, isUrl);
  }
}
