/**
 * The CLI's own configuration store (src/cli/config.ts): loaded once when the
 * module is first imported, with a four-field `auth` record, and the same
 * validate-before-store update as the SDK's store.
 */
module CliConfig {
  import opened Wrappers
  import opened Json
  import opened ConfigFormat

  /** The four `auth` fields of the CLI's config file. */
  const CliAuthSchema: AuthSchema := [
    ("apiKey", StringField), ("baseUrl", UrlField), ("teamId", NumberField), ("teamSlug", StringField)
  ]

  class Config {
    var config: ConfigData
    /** What `update` wrote to the config file, oldest first. */
    var writes: seq<ConfigData>
    const isUrl: string -> bool

    ghost predicate Valid()
      reads this
    {
      ValidConfig(config, CliAuthSchema, isUrl)
    }

    /** The constructor loads the file, falling back to `{auth: null}`. */
    constructor(contents: Option<string>, parseJson: string -> Option<Json>, isUrl: string -> bool)
      ensures config == LoadConfig(contents, parseJson, CliAuthSchema, isUrl)
      ensures writes == [] && this.isUrl == isUrl && Valid()
    {
      config := LoadConfig(contents, parseJson, CliAuthSchema, isUrl);
      writes := [];
      this.isUrl := isUrl;
    }

    /** The `auth` getter; a datatype value, so the caller holds a copy. */
    function Auth(): Option<AuthRecord>
      reads this
    {
      config.auth
    }

    /** `update`: merge into a copy, validate, then store and write; a rejected update changes nothing. */
    method Update(patch: AuthPatch) returns (r: Result<(), string>)
      requires Valid()
      modifies this
      ensures Valid()
      ensures UpdatedConfig(old(config), patch, CliAuthSchema, isUrl).Err? ==>
        r.Err? && config == old(config) && writes == old(writes)
      ensures UpdatedConfig(old(config), patch, CliAuthSchema, isUrl).Ok? ==>
        r.Ok? && config == UpdatedConfig(old(config), patch, CliAuthSchema, isUrl).value &&
        writes == old(writes) + [config]
    {
      var updated := UpdatedConfig(config, patch, CliAuthSchema, isUrl);
      if updated.Err? {
        return Err(updated.error);
      }
      config := updated.value;
      writes := writes + [config];
      r := Ok(());
    }
  }

  /**
   * The update `login` sends (`apiKey`, `teamId`, `teamSlug`, no `baseUrl`)
   * is rejected whenever no credentials are stored yet.
   */
  lemma LoginUpdateRejectedWithoutStoredAuth(apiKey: string, teamId: real, teamSlug: string,
                                            isUrl: string -> bool)
    ensures UpdatedConfig(DefaultConfig,
      MergeAuth(map["apiKey" := JStr(apiKey), "teamId" := JNum(teamId), "teamSlug" := JStr(teamSlug)]),
      CliAuthSchema, isUrl).Err?
  {
    MissingFieldRejected(DefaultConfig,
      map["apiKey" := JStr(apiKey), "teamId" := JNum(teamId), "teamSlug" := JStr(teamSlug)],
      CliAuthSchema, isUrl, 1);
  }

  /** With valid credentials already stored, the same update is accepted and keeps the stored base URL. */
  lemma LoginUpdateAcceptedWithStoredAuth(stored: AuthRecord, apiKey: string, teamId: real, teamSlug: string,
                                          isUrl: string -> bool)
    requires ValidAuth(stored, CliAuthSchema, isUrl)
    ensures var r := UpdatedConfig(ConfigData(Some(stored)),
      MergeAuth(map["apiKey" := JStr(apiKey), "teamId" := JNum(teamId), "teamSlug" := JStr(teamSlug)]),
      CliAuthSchema, isUrl);
      r.Ok? && r.value.auth.Some? && "baseUrl" in r.value.auth.value && "apiKey" in r.value.auth.value &&
      r.value.auth.value["baseUrl"] == stored["baseUrl"] && r.value.auth.value["apiKey"] == JStr(apiKey)
  {
    var fields := map["apiKey" := JStr(apiKey), "teamId" := JNum(teamId), "teamSlug" := JStr(teamSlug)];
    var merged := stored + fields;
    assert MergedAuth(Some(stored), MergeAuth(fields)) == Some(merged);
    LoginMergeComplete(stored, apiKey, teamId, teamSlug, isUrl);
    var a := ParseAuth(merged, CliAuthSchema, isUrl);
    assert InSchema(CliAuthSchema, "baseUrl") && InSchema(CliAuthSchema, "apiKey") by { SchemaKeys(); }
    assert a.Some? && "baseUrl" in a.value && "apiKey" in a.value;
    assert a.value["baseUrl"] == stored["baseUrl"];
    assert a.value["apiKey"] == JStr(apiKey) by { assert merged["apiKey"] == JStr(apiKey); }
  }

  /** The base URL and the API key are fields of the CLI's schema. */
  lemma SchemaKeys()
    ensures CliAuthSchema[0].0 == "apiKey" && CliAuthSchema[1].0 == "baseUrl"
    ensures InSchema(CliAuthSchema, "baseUrl") && InSchema(CliAuthSchema, "apiKey")
  {
    assert CliAuthSchema[0].0 == "apiKey" && CliAuthSchema[1].0 == "baseUrl";
  }

  /** Merging the login fields into valid stored credentials leaves every schema field present and of its kind. */
  lemma LoginMergeComplete(stored: AuthRecord, apiKey: string, teamId: real, teamSlug: string,
                           isUrl: string -> bool)
    requires ValidAuth(stored, CliAuthSchema, isUrl)
    ensures var merged := stored + map["apiKey" := JStr(apiKey), "teamId" := JNum(teamId), "teamSlug" := JStr(teamSlug)];
      HasAllFields(merged, CliAuthSchema, isUrl) && "baseUrl" in merged && merged["baseUrl"] == stored["baseUrl"]
  {
    var fields := map["apiKey" := JStr(apiKey), "teamId" := JNum(teamId), "teamSlug" := JStr(teamSlug)];
    var merged := stored + fields;
    SchemaKeys();
    assert "baseUrl" !in fields;
    forall i | 0 <= i < |CliAuthSchema|
      ensures CliAuthSchema[i].0 in merged && FieldValid(merged[CliAuthSchema[i].0], CliAuthSchema[i].1, isUrl)
    {
      if i == 1 {
        assert merged["baseUrl"] == stored["baseUrl"];
      }
    }
  }

  /** The credentials a login evidently means to store: the API key, the base URL it was issued for, and the team. */
  function LoginFields(apiKey: string, baseUrl: string, teamId: real, teamSlug: string): map<string, Json> {
    map["apiKey" := JStr(apiKey), "baseUrl" := JStr(baseUrl), "teamId" := JNum(teamId), "teamSlug" := JStr(teamSlug)]
  }

  /**
   * A login update that includes the base URL is accepted whatever was stored
   * before, a first login included, and the stored credentials become
   * exactly the four fields sent.
   */
  lemma LoginWithBaseUrlAccepted(stored: ConfigData, apiKey: string, baseUrl: string, teamId: real,
                                 teamSlug: string, isUrl: string -> bool)
    requires ValidConfig(stored, CliAuthSchema, isUrl) && isUrl(baseUrl)
    ensures UpdatedConfig(stored, MergeAuth(LoginFields(apiKey, baseUrl, teamId, teamSlug)), CliAuthSchema, isUrl) ==
      Ok(ConfigData(Some(LoginFields(apiKey, baseUrl, teamId, teamSlug))))
  {
    var fields := LoginFields(apiKey, baseUrl, teamId, teamSlug);
    var merged := MergedAuth(stored.auth, MergeAuth(fields)).value;
    LoginFieldsCover(apiKey, baseUrl, teamId, teamSlug, isUrl, merged);
    var a := ParseAuth(merged, CliAuthSchema, isUrl).value;
    forall k | k in a ensures k in fields {
      SchemaKeysAreLoginKeys(k);
    }
    forall k | k in fields ensures k in a && a[k] == fields[k] {
      SchemaKeysAreLoginKeys(k);
    }
    assert a == fields;
  }

  /** A record holding the four login fields has every schema field, of its kind. */
  lemma LoginFieldsCover(apiKey: string, baseUrl: string, teamId: real, teamSlug: string, isUrl: string -> bool,
                         merged: map<string, Json>)
    requires isUrl(baseUrl)
    requires var fields := LoginFields(apiKey, baseUrl, teamId, teamSlug);
      forall k :: k in fields ==> k in merged && merged[k] == fields[k]
    ensures HasAllFields(merged, CliAuthSchema, isUrl)
  {
    forall i | 0 <= i < |CliAuthSchema|
      ensures CliAuthSchema[i].0 in merged && FieldValid(merged[CliAuthSchema[i].0], CliAuthSchema[i].1, isUrl)
    {
      assert CliAuthSchema[i].0 in LoginFields(apiKey, baseUrl, teamId, teamSlug);
    }
  }

  /** The schema's field names are the four login fields. */
  lemma SchemaKeysAreLoginKeys(k: string)
    ensures InSchema(CliAuthSchema, k) <==> k in {"apiKey", "baseUrl", "teamId", "teamSlug"}
  {
    if InSchema(CliAuthSchema, k) {
      var j :| 0 <= j < |CliAuthSchema| && CliAuthSchema[j].0 == k;
    } else {
      assert CliAuthSchema[0].0 == "apiKey" && CliAuthSchema[1].0 == "baseUrl";
      assert CliAuthSchema[2].0 == "teamId" && CliAuthSchema[3].0 == "teamSlug";
    }
  }
}
