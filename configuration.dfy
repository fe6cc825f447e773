/**
 * The handler's configuration record (`Config`), how a base path is treated
 * (`BasePathBehaviour`), and how response content is encoded
 * (`ResponseType`, declared beside the builder in the crate).
 */
module Configuration {
  import opened Strings

  /** How response content is sent to API Gateway: as UTF-8 text, or Base64-encoded bytes. */
  datatype ResponseType = Text | Binary

  /** Whether the API Gateway base path is mounted and prefixed (`RemountAndInclude`), only prefixed (`Include`), or dropped (`Exclude`). */
  datatype BasePathBehaviour = RemountAndInclude | Include | Exclude

  /** `Config`: the default response type, the per-content-type overrides keyed by lowercase content type, and the base-path behaviour. */
  datatype Config = Config(
    defaultResponseType: ResponseType,
    responseTypes: map<string, ResponseType>,
    basePathBehaviour: BasePathBehaviour)

  /** `Config::default()` */
  function Default(): (c: Config)
    ensures c.defaultResponseType == Text
    ensures c.responseTypes == map[]
    ensures c.basePathBehaviour == RemountAndInclude
  {
    Config(Text, map[], RemountAndInclude)
  }

  /**
   * The response type configured for a content type: the override stored
   * under its lowercase form, else the default.
   */
  function ResponseTypeFor(c: Config, contentType: string): (t: ResponseType)
    ensures ToLower(contentType) in c.responseTypes ==> t == c.responseTypes[ToLower(contentType)]
    ensures ToLower(contentType) !in c.responseTypes ==> t == c.defaultResponseType
  {
    var key := ToLower(contentType);
    if key in c.responseTypes then c.responseTypes[key] else c.defaultResponseType
  }

  /** The configuration after `response_type(contentType, t)`: the override is stored under the lowercase key. */
  function WithResponseType(c: Config, contentType: string, t: ResponseType): (r: Config)
    ensures r.defaultResponseType == c.defaultResponseType && r.basePathBehaviour == c.basePathBehaviour
    ensures r.responseTypes.Keys == c.responseTypes.Keys + {ToLower(contentType)}
  {
    c.(responseTypes := c.responseTypes[ToLower(contentType) := t])
  }

  /** Lookup ignores ASCII case: content types that lowercase alike get the same response type. */
  lemma ResponseTypeCaseInsensitive(c: Config, a: string, b: string)
    requires ToLower(a) == ToLower(b)
    ensures ResponseTypeFor(c, a) == ResponseTypeFor(c, b)
  {
  }

  /** Looking up a lowercased content type is looking up the content type itself. */
  lemma ResponseTypeForLowered(c: Config, contentType: string)
    ensures ResponseTypeFor(c, ToLower(contentType)) == ResponseTypeFor(c, contentType)
  {
    ToLowerIdempotent(contentType);
  }

  /**
   * After registering `t` for `contentType`, every spelling of that content
   * type yields `t` and every other content type keeps its previous answer.
   */
  lemma WithResponseTypeLookup(c: Config, contentType: string, t: ResponseType, query: string)
    ensures ToLower(query) == ToLower(contentType) ==> ResponseTypeFor(WithResponseType(c, contentType, t), query) == t
    ensures ToLower(query) != ToLower(contentType) ==>
              ResponseTypeFor(WithResponseType(c, contentType, t), query) == ResponseTypeFor(c, query)
  {
  }

  /** Changing the default changes exactly the answer for content types with no override. */
  lemma WithDefaultLookup(c: Config, t: ResponseType, query: string)
    ensures ResponseTypeFor(c.(defaultResponseType := t), query)
            == if ToLower(query) in c.responseTypes then ResponseTypeFor(c, query) else t
  {
  }
}
