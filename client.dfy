/**
 * The SDK client of src/lib/client.ts: `authorize` decides the API base URL
 * and token from the explicit options, the current settings, the environment
 * and the config file, in that order; the `apiKey` getter reads the token back.
 */
module Client {
  import opened Wrappers
  import opened Json
  import opened OpenApi
  import opened ConfigFormat

  /** The options a caller may pass; `None` is an omitted field. */
  datatype AuthOptions = AuthOptions(apiKey: Option<string>, baseUrl: Option<string>)

  /** What `authorize` reads from the process: the build flag and two environment variables. */
  datatype Environment = Environment(browserBuild: bool, sindriBaseUrl: Option<string>, sindriApiKey: Option<string>)

  /** `config.auth?.<key>` of the loaded configuration. */
  function StoredText(stored: ConfigData, key: string): Option<string> {
    if stored.auth.Some? && key in stored.auth.value && stored.auth.value[key].JStr?
    then Some(stored.auth.value[key].s) else None
  }

  /** The first truthy candidate: JavaScript's `c0 || c1 || ... || last`. */
  function FirstTruthy(candidates: seq<Option<string>>, last: string): (r: string)
    ensures (exists i :: 0 <= i < |candidates| && StrTruthy(candidates[i])) ==>
      exists i :: 0 <= i < |candidates| && StrTruthy(candidates[i]) && r == candidates[i].value &&
        forall j :: 0 <= j < i ==> !StrTruthy(candidates[j])
    ensures (forall i :: 0 <= i < |candidates| ==> !StrTruthy(candidates[i])) ==> r == last
  {
    if candidates == [] then last
    else if StrTruthy(candidates[0]) then candidates[0].value
    else
      var r := FirstTruthy(candidates[1..], last);
      assert forall i :: 1 <= i < |candidates| ==> candidates[i] == candidates[1..][i - 1];
      r
  }

  lemma FirstTruthyCons(candidates: seq<Option<string>>, last: string)
    requires candidates != []
    ensures FirstTruthy(candidates, last) ==
      if StrTruthy(candidates[0]) then candidates[0].value else FirstTruthy(candidates[1..], last)
  {
  }

  /** The base URL after `authorize`. */
  function ResolveBase(options: AuthOptions, current: string, env: Environment, stored: ConfigData): (r: string)
    ensures r != []
    ensures StrTruthy(options.baseUrl) ==> r == options.baseUrl.value
    ensures env.browserBuild && !StrTruthy(options.baseUrl) ==> r == DefaultBase
    ensures !env.browserBuild ==>
      r == FirstTruthy([options.baseUrl, Some(current), env.sindriBaseUrl, StoredText(stored, "baseUrl")], DefaultBase)
  {
    if env.browserBuild then OrElse(options.baseUrl, Some(DefaultBase)).value
    else
      var candidates := [options.baseUrl, Some(current), env.sindriBaseUrl, StoredText(stored, "baseUrl")];
      assert candidates[1..][1..][1..][1..] == [];
      FirstTruthyCons(candidates, DefaultBase);
      FirstTruthyCons(candidates[1..], DefaultBase);
      FirstTruthyCons(candidates[1..][1..], DefaultBase);
      FirstTruthyCons(candidates[1..][1..][1..], DefaultBase);
      OrElse(OrElse(OrElse(OrElse(options.baseUrl, Some(current)), env.sindriBaseUrl),
                       StoredText(stored, "baseUrl")), Some(DefaultBase)).value
  }

  function ToToken(s: Option<string>): Token {
    if s.Some? then Str(s.value) else Undefined
  }

  /**
   * The token after `authorize`. In the browser build the option is taken
   * as given, even when omitted. Otherwise the first truthy of the option,
   * the current token and the environment, else the stored key as it is.
   */
  function ResolveToken(options: AuthOptions, current: Token, env: Environment, stored: ConfigData): (r: Token)
    ensures env.browserBuild ==> r == ToToken(options.apiKey)
    ensures !env.browserBuild && StrTruthy(options.apiKey) ==> r == Str(options.apiKey.value)
    ensures !env.browserBuild && !StrTruthy(options.apiKey) && TokenTruthy(current) ==> r == current
    ensures !env.browserBuild && !StrTruthy(options.apiKey) && !TokenTruthy(current) ==>
      r == ToToken(OrElse(env.sindriApiKey, StoredText(stored, "apiKey")))
    ensures !env.browserBuild && TokenTruthy(r) ==>
      StrTruthy(options.apiKey) || TokenTruthy(current) || StrTruthy(env.sindriApiKey) ||
      StrTruthy(StoredText(stored, "apiKey"))
  {
    if env.browserBuild then ToToken(options.apiKey)
    else if StrTruthy(options.apiKey) then Str(options.apiKey.value)
    else if TokenTruthy(current) then current
    else ToToken(OrElse(env.sindriApiKey, StoredText(stored, "apiKey")))
  }

  /** The `apiKey` getter: `null` for a resolver or a falsy token, else the token string. */
  function ApiKeyOf(token: Token): (r: Option<string>)
    ensures r.Some? <==> token.Str? && token.s != []
    ensures r.Some? ==> r.value == token.s
  {
    if TokenTruthy(token) && !token.Str? then None
    else if token.Str? && token.s != [] then Some(token.s)
    else None
  }

  /**
   * Outside the browser build a non-empty current base URL shadows the
   * environment and the config file: they matter only once it is cleared.
   */
  lemma CurrentBaseShadowsFallbacks(options: AuthOptions, current: string, env1: Environment, env2: Environment,
                                    stored1: ConfigData, stored2: ConfigData)
    requires !env1.browserBuild && !env2.browserBuild && current != []
    ensures ResolveBase(options, current, env1, stored1) == ResolveBase(options, current, env2, stored2)
  {
  }

  /**
   * Authorizing again with the same options and surroundings changes nothing:
   * the resolved values take precedence over the fallbacks the second time.
   */
  lemma {:induction false} AuthorizeIdempotent(options: AuthOptions, base: string, token: Token, env: Environment,
                                               stored: ConfigData)
    ensures var base' := ResolveBase(options, base, env, stored);
      ResolveBase(options, base', env, stored) == base'
    ensures var token' := ResolveToken(options, token, env, stored);
      ResolveToken(options, token', env, stored) == token'
  {
    var token' := ResolveToken(options, token, env, stored);
    if !env.browserBuild && !StrTruthy(options.apiKey) && !TokenTruthy(token') {
      assert !TokenTruthy(token);
    }
  }

  class Client {
    const api: OpenApiConfig

    /** The constructor authorizes once with the given options. */
    constructor(api: OpenApiConfig, options: AuthOptions, env: Environment, stored: ConfigData)
      modifies api
      ensures this.api == api
      ensures api.base == ResolveBase(options, old(api.base), env, stored)
      ensures api.token == ResolveToken(options, old(api.token), env, stored)
    {
      this.api := api;
      new;
      var _ := Authorize(options, env, stored);
    }

    /** The `apiKey` getter. */
    function ApiKey(): Option<string>
      reads api
    {
      ApiKeyOf(api.token)
    }

    /**
     * `authorize`: sets the base URL and token (`stored` is what `loadConfig`
     * returns) and reports whether both are now set.
     */
    method Authorize(options: AuthOptions, env: Environment, stored: ConfigData) returns (authorized: bool)
      modifies api
      ensures api.base == ResolveBase(options, old(api.base), env, stored)
      ensures api.token == ResolveToken(options, old(api.token), env, stored)
      ensures authorized <==> TokenTruthy(api.token)
    {
      api.base := ResolveBase(options, api.base, env, stored);
      api.token := ResolveToken(options, api.token, env, stored);
      authorized := api.base != [] && TokenTruthy(api.token);
    }
  }

  /** An explicit non-empty key is what the getter reads back after authorizing. */
  lemma ExplicitKeyReadBack(options: AuthOptions, token: Token, env: Environment, stored: ConfigData)
    requires StrTruthy(options.apiKey)
    ensures ApiKeyOf(ResolveToken(options, token, env, stored)) == options.apiKey
  {
  }
}
