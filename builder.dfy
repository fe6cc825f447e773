/**
 * `RocketHandlerBuilder`: a Rocket instance and the configuration that the
 * setters change, until `into_handler` turns both into a handler whose
 * client starts uninitialised.
 */
module Builder {
  import opened Strings
  import opened Wrappers
  import Http
  import opened Configuration
  import Handler

  class RocketHandlerBuilder {
    const rocket: Http.Rocket
    var config: Config

    /** `RocketHandlerBuilder::new`: the default configuration. */
    constructor (rocket: Http.Rocket)
      ensures this.rocket == rocket && config == Default()
      ensures config.defaultResponseType == Text
    {
      this.rocket := rocket;
      config := Default();
    }

    /** `get_default_response_type` */
    function GetDefaultResponseType(): (t: ResponseType)
      reads this
      ensures t == config.defaultResponseType
    {
      config.defaultResponseType
    }

    /** `get_response_type`: the override stored under the lowercase content type, else the default. */
    function GetResponseType(contentType: string): (t: ResponseType)
      reads this
      ensures ToLower(contentType) in config.responseTypes ==> t == config.responseTypes[ToLower(contentType)]
      ensures ToLower(contentType) !in config.responseTypes ==> t == config.defaultResponseType
    {
      ResponseTypeFor(config, contentType)
    }

    /** `default_response_type(t)`: only the default changes. */
    method SetDefaultResponseType(t: ResponseType)
      modifies this
      ensures config == old(config).(defaultResponseType := t)
      ensures GetDefaultResponseType() == t
      ensures forall ct :: ToLower(ct) !in config.responseTypes ==> GetResponseType(ct) == t
    {
      config := config.(defaultResponseType := t);
    }

    /** `response_type(contentType, t)`: only the override for the lowercase content type changes. */
    method SetResponseType(contentType: string, t: ResponseType)
      modifies this
      ensures config == old(config).(responseTypes := old(config).responseTypes[ToLower(contentType) := t])
      ensures forall ct :: ToLower(ct) == ToLower(contentType) ==> GetResponseType(ct) == t
    {
      config := WithResponseType(config, contentType, t);
    }

    /**
     * `include_api_gateway_base_path(setting)`. The crate writes a field that
     * `Config` does not have; here `true` keeps the default behaviour
     * (`RemountAndInclude`) and `false` selects `Exclude`.
     */
    method IncludeApiGatewayBasePath(setting: bool)
      modifies this
      ensures config == old(config).(basePathBehaviour := BehaviourFor(setting))
    {
      config := config.(basePathBehaviour := BehaviourFor(setting));
    }

    /** `into_handler`: the configuration carried over, the client not yet started. */
    method IntoHandler() returns (h: Handler.RocketHandler)
      ensures fresh(h)
      ensures h.client == Handler.Uninitialized(rocket) && h.config == config
    {
      h := new Handler.RocketHandler(Handler.Uninitialized(rocket), config);
    }
  }

  /** The base-path behaviour a boolean setting selects. */
  function BehaviourFor(setting: bool): (b: BasePathBehaviour)
    ensures setting <==> b.RemountAndInclude?
    ensures !setting <==> b.Exclude?
  {
    if setting then RemountAndInclude else Exclude
  }

  /**
   * "TEXT/PLAIN" registered as `Binary`: "text/plain" is then `Binary`,
   * while "application/json" keeps the default `Text`.
   */
  lemma ResponseTypeExample()
    ensures ResponseTypeFor(WithResponseType(Default(), "TEXT/PLAIN", Binary), "text/plain") == Binary
    ensures ResponseTypeFor(WithResponseType(Default(), "TEXT/PLAIN", Binary), "application/json") == Text
  {
    assert ToLower("TEXT/PLAIN") == "text/plain";
    assert ToLower("text/plain") == "text/plain";
    assert ToLower("application/json")[0] == 'a';
  }

  /** A Binary default applies to every content type without an override. */
  lemma DefaultResponseTypeExample(contentType: string)
    ensures ResponseTypeFor(Default().(defaultResponseType := Binary), contentType) == Binary
  {
  }

  /**
   * Registering a content type in any spelling applies to Rocket responses
   * of that type whatever their parameters: with "TEXT/PLAIN" registered as
   * `Binary`, "text/plain; charset=utf-8" is sent as binary.
   */
  lemma RegisteredTypeIgnoresParameters(c: Config, registered: string, t: ResponseType,
                                        headers: seq<Http.Header>, mediaType: string, parameters: string)
    requires Http.GetOne(headers, "content-type") == Some(mediaType + ";" + parameters)
    requires ';' !in mediaType && ToLower(registered) == ToLower(mediaType)
    ensures Handler.SelectResponseType(WithResponseType(c, registered, t), headers) == t
  {
    Handler.SelectIgnoresParameters(WithResponseType(c, registered, t), headers, mediaType, parameters);
    WithResponseTypeLookup(c, registered, t, mediaType);
  }
}
