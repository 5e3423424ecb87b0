/**
 * The shared request settings of the generated API client
 * (src/lib/api/core/OpenAPI.ts): one mutable object whose base URL and token
 * every request reads, and which the client and the config loader overwrite.
 */
module OpenApi {
  /** `string | Resolver<string> | undefined`; a resolver is a function and is always truthy. */
  datatype Token = Undefined | Str(s: string) | Resolver

  predicate TokenTruthy(t: Token) {
    t.Resolver? || (t.Str? && t.s != [])
  }

  const DefaultBase: string := "https://sindri.app"
  const Version: string := "1.6.14"

  class OpenApiConfig {
    var base: string
    var token: Token

    /** The initial settings: the public server and no token. */
    constructor()
      ensures base == DefaultBase && token == Undefined
    {
      base := DefaultBase;
      token := Undefined;
    }
  }
}
