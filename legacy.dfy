/**
 * The older handler kept in lib.rs: a `RocketHandler` that owns a ready
 * Rocket client from the start, uses the URI path as it is (no base path),
 * and sends every response body as text. Its method mapping, query loop and
 * header loop are the same code as handler.rs's and are the members of
 * `Handler` here.
 */
module Legacy {
  import opened Wrappers
  import opened Utf8
  import opened Errors
  import opened Http
  import Configuration
  import RequestExt
  import Handler

  /** lib.rs's `RocketHandler(Client)`. */
  datatype RocketHandler = RocketHandler(client: Client)

  /** `RocketHandler::new`: the client is started at once (its launch error is not modelled). */
  function New(rocket: Rocket): (h: RocketHandler)
    ensures h.client.rocket == rocket
  {
    RocketHandler(Untracked(rocket))
  }

  /** `get_path_and_query`: the URI path followed by the query suffix. */
  method GetPathAndQuery(req: Request, enc: string -> string) returns (r: string)
    ensures r == req.path + Handler.QuerySuffix(Handler.Pairs(req.query), enc)
    ensures Handler.TotalValues(req.query) == 0 ==> r == req.path
  {
    r := Handler.AppendQuery(req.path, req.query, enc);
  }

  /**
   * `create_rocket_request`, as a value: convert the method, build the URI,
   * copy the headers and the body. Unlike the newer handler, nothing here
   * can panic.
   */
  function RocketRequest(h: RocketHandler, req: Request, enc: string -> string): (r: Result<LocalRequest, RocketLambError>)
    ensures r.Ok? <==> Handler.ToRocketMethod(req.verb).Ok? && Handler.ConvertHeaders(req.headers).Ok?
    ensures r.Ok? ==> && Handler.MethodName(r.value.verb) == req.verb
                      && r.value.client == h.client
                      && r.value.uri == req.path + Handler.QuerySuffix(Handler.Pairs(req.query), enc)
                      && r.value.headers == Handler.ConvertHeaders(req.headers).value
                      && r.value.body == BodyBytes(req.body)
    ensures Handler.ToRocketMethod(req.verb).Err? ==> r == Err(InvalidRequest("unknown method '" + req.verb + "'"))
    ensures r.Err? ==> r.error.InvalidRequest?
  {
    var m :- Handler.ToRocketMethod(req.verb);
    var hs :- Handler.ConvertHeaders(req.headers);
    Ok(LocalRequest(h.client, m, req.path + Handler.QuerySuffix(Handler.Pairs(req.query), enc), hs, BodyBytes(req.body)))
  }

  /** `create_rocket_request` with its header loop. */
  method CreateRocketRequest(h: RocketHandler, req: Request, enc: string -> string) returns (r: Result<LocalRequest, RocketLambError>)
    ensures r == RocketRequest(h, req, enc)
  {
    var m := Handler.ToRocketMethod(req.verb);
    if m.Err? {
      return Err(m.error);
    }
    var uri := GetPathAndQuery(req, enc);
    var hs := Handler.CopyHeaders(req.headers);
    if hs.Err? {
      return Err(hs.error);
    }
    r := Ok(LocalRequest(h.client, m.value, uri, hs.value, BodyBytes(req.body)));
  }

  const BodyNotUtf8Message: string := "could not read response body as UTF-8 text"

  /**
   * `to_lambda_response`: the status and every header are copied; a body is
   * always read as UTF-8 text, and one that is not UTF-8 makes the response
   * invalid.
   */
  function ToLambdaResponse(res: LocalResponse): (r: Result<Response, RocketLambError>)
    ensures r.Ok? ==> r.value.status == res.status && r.value.headers == res.headers
    ensures res.body.None? ==> r.Ok? && r.value.body == Empty
    ensures res.body.Some? ==>
              && (r.Ok? <==> exists s :: Encode(s) == res.body.value)
              && (r.Ok? ==> r.value.body.Text? && Encode(r.value.body.text) == res.body.value)
              && (r.Err? ==> r.error == InvalidResponse(BodyNotUtf8Message))
  {
    if res.body.None? then Ok(Response(res.status, res.headers, Empty))
    else
      DecodeIffEncoding(res.body.value);
      var decoded := Decode(res.body.value);
      if decoded.Some? then
        EncodeDecode(res.body.value);
        Ok(Response(res.status, res.headers, Body.Text(decoded.value)))
      else Err(InvalidResponse(BodyNotUtf8Message))
  }

  /** `run_internal`: build the local request, dispatch it, translate the answer. */
  function RunInternal(h: RocketHandler, req: Request, enc: string -> string,
                       dispatch: LocalRequest -> LocalResponse): (r: Result<Response, RocketLambError>)
    ensures Handler.ToRocketMethod(req.verb).Err? || Handler.ConvertHeaders(req.headers).Err? ==>
              r == Err(RocketRequest(h, req, enc).error)
    ensures RocketRequest(h, req, enc).Ok? ==> r == ToLambdaResponse(dispatch(RocketRequest(h, req, enc).value))
  {
    var local :- RocketRequest(h, req, enc);
    ToLambdaResponse(dispatch(local))
  }

  /**
   * The text-only translation is the newer one under the default
   * configuration: both accept exactly the same responses and produce the
   * same Lambda response; only the error message differs.
   */
  lemma ToLambdaResponseIsDefaultTranslation(res: LocalResponse)
    ensures ToLambdaResponse(res).Ok? <==> Handler.CreateLambdaResponse(Configuration.Default(), res).Ok?
    ensures ToLambdaResponse(res).Ok? ==> ToLambdaResponse(res) == Handler.CreateLambdaResponse(Configuration.Default(), res)
  {
    if res.body.Some? {
      assert Handler.SelectResponseType(Configuration.Default(), res.headers) == Configuration.ResponseType.Text;
      if ToLambdaResponse(res).Ok? {
        EncodeInjective(ToLambdaResponse(res).value.body.text, Handler.CreateLambdaResponse(Configuration.Default(), res).value.body.text);
      }
    }
  }

  /**
   * Behind a load balancer the older handler and the newer one build the
   * same local request from the same ready client, whatever the base-path
   * behaviour.
   */
  lemma SameRequestBehindLoadBalancer(c: Client, config: Configuration.Config, req: Request, enc: string -> string)
    requires req.context.Alb?
    ensures Handler.RocketRequest(Handler.Ready(c), config, req, enc).Ok? <==> RocketRequest(RocketHandler(c), req, enc).Ok?
    ensures RocketRequest(RocketHandler(c), req, enc).Ok? ==>
              Handler.RocketRequest(Handler.Ready(c), config, req, enc) == Ok(RocketRequest(RocketHandler(c), req, enc).value)
  {
    RequestExt.AlbPaths(req);
    var r := Handler.RocketRequest(Handler.Ready(c), config, req, enc);
    var l := RocketRequest(RocketHandler(c), req, enc);
    if l.Ok? {
      assert r.Ok?;
      assert r.value.headers == l.value.headers;
    }
  }
}
