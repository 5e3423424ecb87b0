/**
 * The persisted CLI/SDK configuration shared by src/lib/config.ts and
 * src/cli/config.ts: an object with one `auth` entry that is `null` or a
 * record whose fields have fixed names and kinds, validated by a schema before
 * it is stored. Each of the two files has its own list of `auth` fields; the
 * validation, the merge of an update and the loading rule are the same.
 */
module ConfigFormat {
  import opened Wrappers
  import opened Json

  /** `z.string()`, `z.string().url()` and `z.number()`. */
  datatype FieldKind = StringField | UrlField | NumberField

  /** The fields of the `auth` object, by name and kind, names distinct. */
  type AuthSchema = seq<(string, FieldKind)>

  /** An `auth` object as a map from field name to value. */
  type AuthRecord = map<string, Json>

  /** The validated configuration: `auth` is `null` (`None`) or a record. */
  datatype ConfigData = ConfigData(auth: Option<AuthRecord>)

  /** `ConfigSchema.parse({})`: `auth` defaults to `null`. */
  const DefaultConfig: ConfigData := ConfigData(None)

  predicate InSchema(schema: AuthSchema, key: string) {
    exists i :: 0 <= i < |schema| && schema[i].0 == key
  }

  /** One field's check; whether a string is a URL is decided by `isUrl`. */
  predicate FieldValid(v: Json, kind: FieldKind, isUrl: string -> bool) {
    match kind
    case StringField => v.JStr?
    case UrlField => v.JStr? && isUrl(v.s)
    case NumberField => v.JNum?
  }

  /** Every schema field is present with a value of its kind. */
  predicate HasAllFields(raw: map<string, Json>, schema: AuthSchema, isUrl: string -> bool) {
    forall i :: 0 <= i < |schema| ==> schema[i].0 in raw && FieldValid(raw[schema[i].0], schema[i].1, isUrl)
  }

  /** A stored record: exactly the schema's fields, each of its kind. */
  predicate ValidAuth(a: AuthRecord, schema: AuthSchema, isUrl: string -> bool) {
    HasAllFields(a, schema, isUrl) && forall k :: k in a ==> InSchema(schema, k)
  }

  predicate ValidConfig(c: ConfigData, schema: AuthSchema, isUrl: string -> bool) {
    c.auth.Some? ==> ValidAuth(c.auth.value, schema, isUrl)
  }

  /**
   * The object check: every field present and of its kind; unknown fields are
   * dropped from the result, as the schema library does for an object schema.
   */
  function ParseAuth(raw: map<string, Json>, schema: AuthSchema, isUrl: string -> bool): (r: Option<AuthRecord>)
    ensures r.Some? <==> HasAllFields(raw, schema, isUrl)
    ensures r.Some? ==> ValidAuth(r.value, schema, isUrl)
    ensures r.Some? ==> forall k :: k in r.value <==> k in raw && InSchema(schema, k)
    ensures r.Some? ==> forall k :: k in r.value ==> r.value[k] == raw[k]
  {
    if HasAllFields(raw, schema, isUrl) then
      var stripped := map k | k in raw && InSchema(schema, k) :: raw[k];
      assert HasAllFields(stripped, schema, isUrl) by {
        forall i | 0 <= i < |schema| ensures schema[i].0 in stripped {
          assert InSchema(schema, schema[i].0);
        }
      }
      Some(stripped)
    else None
  }

  /** Validating a stored record gives it back unchanged. */
  lemma ParseValidAuth(a: AuthRecord, schema: AuthSchema, isUrl: string -> bool)
    requires ValidAuth(a, schema, isUrl)
    ensures ParseAuth(a, schema, isUrl) == Some(a)
  {
    var r := ParseAuth(a, schema, isUrl).value;
    assert forall k :: k in r <==> k in a;
    assert forall k :: k in r ==> r[k] == a[k];
    assert r == a;
  }

  /** The entries of a JSON object as a map (keys of a parsed object are distinct). */
  function EntryMap(entries: seq<(string, Json)>): (m: map<string, Json>)
    ensures forall k :: k in m <==> exists i :: 0 <= i < |entries| && entries[i].0 == k
  {
    if entries == [] then map[]
    else EntryMap(entries[..|entries| - 1])[entries[|entries| - 1].0 := entries[|entries| - 1].1]
  }

  /** `ConfigSchema.parse` on a parsed JSON value. */
  function ParseConfig(j: Json, schema: AuthSchema, isUrl: string -> bool): (r: Result<ConfigData, string>)
    ensures r.Ok? ==> ValidConfig(r.value, schema, isUrl)
    ensures !j.JObj? ==> r.Err?
    ensures j.JObj? && Field(j.entries, "auth") in {None, Some(JNull)} ==> r == Ok(DefaultConfig)
    ensures (j.JObj? && Field(j.entries, "auth").Some? && !Field(j.entries, "auth").value.JNull? &&
             !Field(j.entries, "auth").value.JObj?) ==> r.Err?
    ensures j.JObj? && Field(j.entries, "auth").Some? && Field(j.entries, "auth").value.JObj? ==>
      var raw := EntryMap(Field(j.entries, "auth").value.entries);
      (r.Ok? <==> HasAllFields(raw, schema, isUrl)) &&
      (r.Ok? ==>
        r.value.auth.Some? &&
        (forall k :: k in r.value.auth.value <==> k in raw && InSchema(schema, k)) &&
        (forall k :: k in r.value.auth.value ==> r.value.auth.value[k] == raw[k]))
  {
    if !j.JObj? then Err("Expected object")
    else
      match Field(j.entries, "auth")
      case None => Ok(DefaultConfig)
      case Some(JNull) => Ok(DefaultConfig)
      case Some(JObj(es)) =>
        var a := ParseAuth(EntryMap(es), schema, isUrl);
        if a.Some? then Ok(ConfigData(a)) else Err("Invalid auth")
      case Some(_) => Err("Expected object or null")
  }

  /**
   * `loadConfig`: the parsed and validated file, or the default when the file
   * is missing (`contents` is `None`), is not JSON, or fails validation.
   */
  function LoadConfig(contents: Option<string>, parseJson: string -> Option<Json>,
                      schema: AuthSchema, isUrl: string -> bool): (r: ConfigData)
    ensures ValidConfig(r, schema, isUrl)
    ensures contents.None? ==> r == DefaultConfig
    ensures (contents.Some? && parseJson(contents.value).Some? &&
      ParseConfig(parseJson(contents.value).value, schema, isUrl).Ok?) ==>
      r == ParseConfig(parseJson(contents.value).value, schema, isUrl).value
    ensures r != DefaultConfig ==> (contents.Some? && parseJson(contents.value).Some? &&
      ParseConfig(parseJson(contents.value).value, schema, isUrl) == Ok(r))
  {
    if contents.None? then DefaultConfig
    else
      var j := parseJson(contents.value);
      if j.None? then DefaultConfig
      else
        var c := ParseConfig(j.value, schema, isUrl);
        if c.Ok? then c.value else DefaultConfig
  }

  /** The `auth` part of an update: absent, `null`, or an object of fields to merge in. */
  datatype AuthPatch = KeepAuth | SetAuthNull | MergeAuth(fields: map<string, Json>)

  /**
   * The `auth` value after `merge(cloneDeep(config), update)`, before
   * validation. A stored record holds only strings and numbers, so merging a
   * field deeply gives the same value as replacing it.
   */
  function MergedAuth(stored: Option<AuthRecord>, patch: AuthPatch): (r: Option<map<string, Json>>)
    ensures patch == KeepAuth ==> r == stored
    ensures patch == SetAuthNull ==> r == None
    ensures patch.MergeAuth? ==> (r.Some? &&
      (forall k :: k in r.value <==> k in patch.fields || (stored.Some? && k in stored.value)) &&
      (forall k :: k in patch.fields ==> r.value[k] == patch.fields[k]) &&
      (forall k :: stored.Some? && k in stored.value && k !in patch.fields ==> r.value[k] == stored.value[k]))
  {
    match patch
    case KeepAuth => stored
    case SetAuthNull => None
    case MergeAuth(fields) => Some((if stored.Some? then stored.value else map[]) + fields)
  }

  /**
   * `update`'s new configuration: the merged copy if it validates, otherwise
   * the error the schema raises (and nothing is stored).
   */
  function UpdatedConfig(stored: ConfigData, patch: AuthPatch, schema: AuthSchema,
                         isUrl: string -> bool): (r: Result<ConfigData, string>)
    ensures r.Ok? ==> ValidConfig(r.value, schema, isUrl)
  {
    var merged := MergedAuth(stored.auth, patch);
    if merged.None? then Ok(ConfigData(None))
    else
      var a := ParseAuth(merged.value, schema, isUrl);
      if a.Some? then Ok(ConfigData(a)) else Err("Invalid auth")
  }

  /** Logging out (`{auth: null}`) always succeeds and clears the credentials. */
  lemma ClearAuthSucceeds(stored: ConfigData, schema: AuthSchema, isUrl: string -> bool)
    ensures UpdatedConfig(stored, SetAuthNull, schema, isUrl) == Ok(DefaultConfig)
  {
  }

  /** An update that leaves `auth` out keeps a valid configuration as it is. */
  lemma EmptyUpdateKeeps(stored: ConfigData, schema: AuthSchema, isUrl: string -> bool)
    requires ValidConfig(stored, schema, isUrl)
    ensures UpdatedConfig(stored, KeepAuth, schema, isUrl) == Ok(stored)
  {
    if stored.auth.Some? {
      ParseValidAuth(stored.auth.value, schema, isUrl);
    }
  }

  /**
   * An update is accepted exactly when every schema field ends up present and
   * of its kind, counting stored fields the update does not mention.
   */
  lemma MergeAcceptedIff(stored: ConfigData, fields: map<string, Json>, schema: AuthSchema, isUrl: string -> bool)
    ensures UpdatedConfig(stored, MergeAuth(fields), schema, isUrl).Ok? <==>
      forall i :: 0 <= i < |schema| ==>
        var key := schema[i].0;
        (key in fields && FieldValid(fields[key], schema[i].1, isUrl)) ||
        (key !in fields && stored.auth.Some? && key in stored.auth.value &&
         FieldValid(stored.auth.value[key], schema[i].1, isUrl))
  {
    var merged := MergedAuth(stored.auth, MergeAuth(fields)).value;
    assert HasAllFields(merged, schema, isUrl) <==>
      forall i :: 0 <= i < |schema| ==>
        var key := schema[i].0;
        (key in fields && FieldValid(fields[key], schema[i].1, isUrl)) ||
        (key !in fields && stored.auth.Some? && key in stored.auth.value &&
         FieldValid(stored.auth.value[key], schema[i].1, isUrl));
  }

  /**
   * With no stored credentials, an update whose `auth` lacks a schema field
   * is rejected: the merged object has nothing to fill the field with.
   */
  lemma MissingFieldRejected(stored: ConfigData, fields: map<string, Json>, schema: AuthSchema,
                             isUrl: string -> bool, i: nat)
    requires stored.auth.None? && i < |schema| && schema[i].0 !in fields
    ensures UpdatedConfig(stored, MergeAuth(fields), schema, isUrl).Err?
  {
    var merged := MergedAuth(stored.auth, MergeAuth(fields)).value;
    assert schema[i].0 !in merged;
  }
}
