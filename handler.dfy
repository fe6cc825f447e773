/**
 * The Lambda handler of handler.rs: it builds a Rocket local request from a
 * Lambda request, lets the Rocket application answer it, and turns the
 * answer into a Lambda response. The Rocket client is created lazily, on
 * the first request, because the base path it may be mounted under is only
 * known then.
 *
 * Rocket's `Uri::percent_encode` is the parameter `enc`, and dispatching a
 * local request to the application is the parameter `dispatch`.
 */
module Handler {
  import opened Wrappers
  import opened Strings
  import opened Utf8
  import opened Errors
  import opened Http
  import opened Configuration
  import opened RequestExt

  // ---------------------------------------------------------------- methods

  /** The method token Rocket's `Method::as_str` gives for each method. */
  function MethodName(m: Method): string {
    match m
    case Get => "GET"
    case Put => "PUT"
    case Post => "POST"
    case Delete => "DELETE"
    case Options => "OPTIONS"
    case Head => "HEAD"
    case Trace => "TRACE"
    case Connect => "CONNECT"
    case Patch => "PATCH"
  }

  /**
   * `to_rocket_method`: the nine standard methods map to Rocket's methods of
   * the same name; any other method token is an invalid request.
   */
  function ToRocketMethod(verb: string): (r: Result<Method, RocketLambError>)
    ensures r.Ok? <==> verb in {"GET", "PUT", "POST", "DELETE", "OPTIONS", "HEAD", "TRACE", "CONNECT", "PATCH"}
    ensures r.Ok? ==> MethodName(r.value) == verb
    ensures r.Err? ==> r.error == InvalidRequest("unknown method '" + verb + "'")
  {
    if verb == "GET" then Ok(Get)
    else if verb == "PUT" then Ok(Put)
    else if verb == "POST" then Ok(Post)
    else if verb == "DELETE" then Ok(Delete)
    else if verb == "OPTIONS" then Ok(Options)
    else if verb == "HEAD" then Ok(Head)
    else if verb == "TRACE" then Ok(Trace)
    else if verb == "CONNECT" then Ok(Connect)
    else if verb == "PATCH" then Ok(Patch)
    else Err(InvalidRequest("unknown method '" + verb + "'"))
  }

  /** The mapping is one-to-one: a token maps to `m` exactly when it is `m`'s name. */
  lemma ToRocketMethodIff(verb: string, m: Method)
    ensures ToRocketMethod(verb) == Ok(m) <==> MethodName(m) == verb
  {
  }

  // ----------------------------------------------------------- query string

  /** The character before the pair at `index`: `?` before the first, `&` before every later one. */
  function Separator(index: nat): char {
    if index == 0 then '?' else '&'
  }

  /** `key=value`, both percent-encoded. */
  function PairText(pair: (string, string), enc: string -> string): string {
    enc(pair.0) + "=" + enc(pair.1)
  }

  function PairTexts(pairs: seq<(string, string)>, enc: string -> string): (r: seq<string>)
    ensures |r| == |pairs| && forall i :: 0 <= i < |pairs| ==> r[i] == PairText(pairs[i], enc)
  {
    seq(|pairs|, i requires 0 <= i < |pairs| => PairText(pairs[i], enc))
  }

  lemma PairTextsSnoc(pairs: seq<(string, string)>, enc: string -> string)
    requires pairs != []
    ensures PairTexts(pairs, enc) == PairTexts(pairs[..|pairs| - 1], enc) + [PairText(pairs[|pairs| - 1], enc)]
  {
  }

  /** What the query loop appends for `pairs`, one pair at a time, each preceded by its separator. */
  function QuerySuffix(pairs: seq<(string, string)>, enc: string -> string): string
    decreases |pairs|
  {
    if pairs == [] then []
    else
      var n := |pairs| - 1;
      QuerySuffix(pairs[..n], enc) + [Separator(n)] + PairText(pairs[n], enc)
  }

  /** Every value of one key, paired with the key, in order. */
  function KeyPairs(entry: QueryEntry): (r: seq<(string, string)>)
    ensures |r| == |entry.values| && forall j :: 0 <= j < |r| ==> r[j] == (entry.key, entry.values[j])
  {
    seq(|entry.values|, j requires 0 <= j < |entry.values| => (entry.key, entry.values[j]))
  }

  /** The (key, value) pairs in the order the loop visits them: key by key, each key's values in order. */
  function Pairs(query: seq<QueryEntry>): seq<(string, string)>
    decreases |query|
  {
    if query == [] then [] else Pairs(query[..|query| - 1]) + KeyPairs(query[|query| - 1])
  }

  /** The number of values over all keys. */
  function TotalValues(query: seq<QueryEntry>): nat
    decreases |query|
  {
    if query == [] then 0 else TotalValues(query[..|query| - 1]) + |query[|query| - 1].values|
  }

  lemma PairsStep(query: seq<QueryEntry>, i: nat)
    requires i < |query|
    ensures Pairs(query[..i + 1]) == Pairs(query[..i]) + KeyPairs(query[i])
  {
    assert query[..i + 1][..i] == query[..i];
  }

  /** One pair is emitted per value. */
  lemma {:induction false} PairsCount(query: seq<QueryEntry>)
    ensures |Pairs(query)| == TotalValues(query)
    decreases |query|
  {
    if query != [] {
      PairsCount(query[..|query| - 1]);
    }
  }

  /** The `j`-th value of the `i`-th key is emitted once all values of the keys before it are. */
  lemma {:induction false} PairsAt(query: seq<QueryEntry>, i: nat, j: nat)
    requires i < |query| && j < |query[i].values|
    ensures TotalValues(query[..i]) + j < |Pairs(query)|
    ensures Pairs(query)[TotalValues(query[..i]) + j] == (query[i].key, query[i].values[j])
    decreases |query|
  {
    var n := |query| - 1;
    var init := query[..n];
    PairsCount(init);
    PairsCount(query);
    if i == n {
      assert query[..i] == init;
    } else {
      assert init[..i] == query[..i];
      PairsAt(init, i, j);
    }
  }

  /** The suffix is empty without pairs, and otherwise "?" followed by the pairs joined with "&". */
  lemma {:induction false} QuerySuffixJoin(pairs: seq<(string, string)>, enc: string -> string)
    ensures pairs == [] ==> QuerySuffix(pairs, enc) == []
    ensures pairs != [] ==> QuerySuffix(pairs, enc) == ['?'] + Join(PairTexts(pairs, enc), '&')
    decreases |pairs|
  {
    if |pairs| == 1 {
      assert pairs[..0] == [];
    } else if |pairs| > 1 {
      var n := |pairs| - 1;
      var init := PairTexts(pairs[..n], enc);
      var last := PairText(pairs[n], enc);
      QuerySuffixJoin(pairs[..n], enc);
      PairTextsSnoc(pairs, enc);
      JoinAppend(init, last, '&');
    }
  }

  /**
   * When the encoder never produces "&", the query string after "?" splits
   * on "&" back into exactly the emitted `key=value` texts, one per pair, in
   * order.
   */
  lemma QuerySuffixSplits(pairs: seq<(string, string)>, enc: string -> string)
    requires forall s :: '&' !in enc(s)
    requires pairs != []
    ensures Split(QuerySuffix(pairs, enc)[1..], '&') == PairTexts(pairs, enc)
  {
    QuerySuffixJoin(pairs, enc);
    var texts := PairTexts(pairs, enc);
    forall i | 0 <= i < |texts|
      ensures '&' !in texts[i]
    {
      assert texts[i] == enc(pairs[i].0) + "=" + enc(pairs[i].1);
      assert '&' !in enc(pairs[i].0) && '&' !in enc(pairs[i].1);
    }
    SplitJoin(texts, '&');
  }

  /** Emitting one more pair of `next` appends that pair's text and its separator. */
  lemma QuerySuffixStep(done: seq<(string, string)>, next: seq<(string, string)>, j: nat, enc: string -> string)
    requires j < |next|
    ensures QuerySuffix(done + next[..j + 1], enc)
            == QuerySuffix(done + next[..j], enc) + [Separator(|done + next[..j]|)] + PairText(next[j], enc)
    ensures Separator(|done + next[..j + 1]|) == '&'
  {
    var before := done + next[..j];
    assert done + next[..j + 1] == before + [next[j]];
    assert (before + [next[j]])[..|before|] == before;
  }

  /**
   * The query loop of `get_path_and_query`: append `?key=value` for the
   * first value and `&key=value` for every later one, visiting every value
   * of every key once. Without values the URI is left as it is.
   */
  method AppendQuery(uri: string, query: seq<QueryEntry>, enc: string -> string) returns (r: string)
    ensures r == uri + QuerySuffix(Pairs(query), enc)
    ensures TotalValues(query) == 0 ==> r == uri
    ensures TotalValues(query) > 0 ==> r == uri + ['?'] + Join(PairTexts(Pairs(query), enc), '&')
  {
    r := uri;
    var separator := '?';
    var i := 0;
    while i < |query|
      invariant 0 <= i <= |query|
      invariant r == uri + QuerySuffix(Pairs(query[..i]), enc)
      invariant separator == Separator(|Pairs(query[..i])|)
    {
      r, separator := AppendValues(r, separator, query[i], enc, uri, Pairs(query[..i]));
      PairsStep(query, i);
      i := i + 1;
    }
    assert query[..i] == query;
    PairsCount(query);
    QuerySuffixJoin(Pairs(query), enc);
  }

  /** The inner loop of the query loop: every value of one key, each after the current separator. */
  method AppendValues(r0: string, separator0: char, entry: QueryEntry, enc: string -> string,
                      ghost uri: string, ghost done: seq<(string, string)>)
    returns (r: string, separator: char)
    requires r0 == uri + QuerySuffix(done, enc) && separator0 == Separator(|done|)
    ensures r == uri + QuerySuffix(done + KeyPairs(entry), enc)
    ensures separator == Separator(|done + KeyPairs(entry)|)
  {
    r, separator := r0, separator0;
    var j := 0;
    assert done + KeyPairs(entry)[..0] == done;
    while j < |entry.values|
      invariant 0 <= j <= |entry.values|
      invariant r == uri + QuerySuffix(done + KeyPairs(entry)[..j], enc)
      invariant separator == Separator(|done + KeyPairs(entry)[..j]|)
    {
      QuerySuffixStep(done, KeyPairs(entry), j, enc);
      assert enc(entry.key) + "=" + enc(entry.values[j]) == PairText(KeyPairs(entry)[j], enc);
      r := r + [separator] + enc(entry.key) + "=" + enc(entry.values[j]);
      separator := '&';
      j := j + 1;
    }
    assert KeyPairs(entry)[..j] == KeyPairs(entry);
  }

  // ---------------------------------------------------------------- headers

  function InvalidHeaderMessage(name: string): string {
    "invalid value for header '" + name + "'"
  }

  /**
   * The header loop of `create_rocket_request`, as a value: every header is
   * copied with its value read as text; the first header whose value is not
   * text makes the request invalid.
   */
  function ConvertHeaders(hs: seq<RequestHeader>): (r: Result<seq<Header>, RocketLambError>)
    ensures r.Ok? <==> forall i :: 0 <= i < |hs| ==> HeaderValueToStr(hs[i].value).Some?
    ensures r.Ok? ==> |r.value| == |hs|
                      && forall i :: 0 <= i < |hs| ==> r.value[i] == Header(hs[i].name, HeaderValueToStr(hs[i].value).value)
    ensures r.Err? ==> exists i :: 0 <= i < |hs| && HeaderValueToStr(hs[i].value).None?
                                   && (forall j :: 0 <= j < i ==> HeaderValueToStr(hs[j].value).Some?)
                                   && r.error == InvalidRequest(InvalidHeaderMessage(hs[i].name))
    decreases |hs|
  {
    if hs == [] then Ok([])
    else
      var n := |hs| - 1;
      assert forall i :: 0 <= i < n ==> hs[..n][i] == hs[i];
      match ConvertHeaders(hs[..n])
      case Err(e) => Err(e)
      case Ok(copied) =>
        match HeaderValueToStr(hs[n].value)
        case None => Err(InvalidRequest(InvalidHeaderMessage(hs[n].name)))
        case Some(v) => Ok(copied + [Header(hs[n].name, v)])
  }

  /** The header loop itself: add each header in turn, returning at the first value that is not text. */
  method CopyHeaders(hs: seq<RequestHeader>) returns (r: Result<seq<Header>, RocketLambError>)
    ensures r == ConvertHeaders(hs)
  {
    var added: seq<Header> := [];
    var i := 0;
    while i < |hs|
      invariant 0 <= i <= |hs|
      invariant |added| == i
      invariant forall k :: 0 <= k < i ==> HeaderValueToStr(hs[k].value).Some?
      invariant forall k :: 0 <= k < i ==> added[k] == Header(hs[k].name, HeaderValueToStr(hs[k].value).value)
    {
      var v := HeaderValueToStr(hs[i].value);
      if v.None? {
        var expected := ConvertHeaders(hs);
        ghost var k :| 0 <= k < |hs| && HeaderValueToStr(hs[k].value).None?
                       && (forall j :: 0 <= j < k ==> HeaderValueToStr(hs[j].value).Some?)
                       && expected.error == InvalidRequest(InvalidHeaderMessage(hs[k].name));
        assert k == i;
        return Err(InvalidRequest(InvalidHeaderMessage(hs[i].name)));
      }
      added := added + [Header(hs[i].name, v.value)];
      i := i + 1;
    }
    assert ConvertHeaders(hs).value == added;
    r := Ok(added);
  }

  // --------------------------------------------------------------- response

  const BodyNotTextMessage: string := "response body was not text"

  /**
   * `get_one("content-type").unwrap_or_default().split(';').next()`: the
   * media type, that is the content-type value up to its first ";" (a
   * prefix with no ";" in it, followed by ";" or by the end), and "" without
   * the header.
   */
  function ContentTypeOf(headers: seq<Header>): (r: string)
    ensures GetOne(headers, "content-type").None? ==> r == []
    ensures GetOne(headers, "content-type").Some? ==>
              var value := GetOne(headers, "content-type").value;
              && StartsWith(value, r) && ';' !in r
              && (|r| == |value| || value[|r|] == ';')
  {
    var value := GetOne(headers, "content-type").GetOr([]);
    SplitFirst(value, ';');
    Split(value, ';')[0]
  }

  /** The response type of a Rocket response: the override for its lowercase media type, else the default. */
  function SelectResponseType(config: Config, headers: seq<Header>): (t: ResponseType)
    ensures ToLower(ContentTypeOf(headers)) in config.responseTypes ==>
              t == config.responseTypes[ToLower(ContentTypeOf(headers))]
    ensures ToLower(ContentTypeOf(headers)) !in config.responseTypes ==> t == config.defaultResponseType
  {
    ResponseTypeFor(config, ContentTypeOf(headers))
  }

  /** Without a content-type header the lookup is for "", so the default applies unless "" itself was configured. */
  lemma MissingContentTypeUsesDefault(config: Config, headers: seq<Header>)
    requires GetOne(headers, "content-type").None? && "" !in config.responseTypes
    ensures SelectResponseType(config, headers) == config.defaultResponseType
  {
    assert ContentTypeOf(headers) == [];
    assert ToLower([]) == [];
  }

  /**
   * Parameters after the media type do not matter, and neither does case:
   * "TEXT/PLAIN" registered as `Binary` makes "text/plain; charset=utf-8"
   * binary.
   */
  lemma SelectIgnoresParameters(config: Config, headers: seq<Header>, mediaType: string, parameters: string)
    requires GetOne(headers, "content-type") == Some(mediaType + ";" + parameters)
    requires ';' !in mediaType
    ensures SelectResponseType(config, headers) == ResponseTypeFor(config, mediaType)
  {
    var value := mediaType + ";" + parameters;
    assert value == mediaType + [';'] + parameters;
    SplitAfter(mediaType, parameters, ';');
  }

  /** The Lambda body for a Rocket body of the given response type. */
  function ResponseBody(t: ResponseType, body: Option<seq<byte>>): (r: Result<Body, RocketLambError>)
    ensures body.None? ==> r == Ok(Empty)
    ensures body.Some? && t == ResponseType.Binary ==> r == Ok(Body.Binary(body.value))
    ensures body.Some? && t == ResponseType.Text ==>
              && (r.Ok? <==> exists s :: Encode(s) == body.value)
              && (r.Ok? ==> r.value.Text? && Encode(r.value.text) == body.value)
              && (r.Err? ==> r.error == InvalidResponse(BodyNotTextMessage))
  {
    if body.None? then Ok(Empty)
    else if t == ResponseType.Binary then Ok(Body.Binary(body.value))
    else
      DecodeIffEncoding(body.value);
      var decoded := Decode(body.value);
      if decoded.Some? then
        EncodeDecode(body.value);
        Ok(Body.Text(decoded.value))
      else Err(InvalidResponse(BodyNotTextMessage))
  }

  /**
   * `create_lambda_response`: the status and every header are copied; the
   * body is absent, passed through as bytes for `Binary`, or read as UTF-8
   * text for `Text`, where bytes that are not UTF-8 make the response
   * invalid (there is no fallback to binary).
   */
  function CreateLambdaResponse(config: Config, res: LocalResponse): (r: Result<Response, RocketLambError>)
    ensures r.Ok? ==> r.value.status == res.status && r.value.headers == res.headers
    ensures res.body.None? ==> r.Ok? && r.value.body == Empty
    ensures res.body.Some? && SelectResponseType(config, res.headers) == ResponseType.Binary ==>
              r.Ok? && r.value.body == Body.Binary(res.body.value)
    ensures res.body.Some? && SelectResponseType(config, res.headers) == ResponseType.Text ==>
              && (r.Ok? <==> exists s :: Encode(s) == res.body.value)
              && (r.Ok? ==> r.value.body.Text? && Encode(r.value.body.text) == res.body.value)
              && (r.Err? ==> r.error == InvalidResponse(BodyNotTextMessage))
  {
    var body := ResponseBody(SelectResponseType(config, res.headers), res.body);
    if body.Ok? then
      assert res.body.Some? && SelectResponseType(config, res.headers) == ResponseType.Text ==>
               exists s :: Encode(s) == res.body.value;
      Ok(Response(res.status, res.headers, body.value))
    else Err(body.error)
  }

  // ------------------------------------------------------------ the request

  /**
   * The path the request URI starts from: the API path under `Exclude`, the
   * full path otherwise. Either way it ends with the API path, the path the
   * application routes on.
   */
  function PathPrefix(behaviour: BasePathBehaviour, req: Request): (r: Result<string, Panic>)
    ensures behaviour == Exclude ==> r == ApiPath(req)
    ensures behaviour != Exclude ==> r == FullPath(req)
    ensures r.Ok? ==> ApiPath(req).Ok? && EndsWith(r.value, ApiPath(req).value)
  {
    match behaviour
    case Include | RemountAndInclude => FullPath(req)
    case Exclude => ApiPath(req)
  }

  /**
   * The URI that `get_path_and_query` builds: the path prefix, then nothing
   * when there are no query values, else "?" and the `key=value` texts
   * joined with "&".
   */
  function RequestUri(behaviour: BasePathBehaviour, req: Request, enc: string -> string): (r: Result<string, Panic>)
    ensures r.Ok? <==> PathPrefix(behaviour, req).Ok?
    ensures r.Err? ==> r.error == PathPrefix(behaviour, req).error
    ensures r.Ok? && TotalValues(req.query) == 0 ==> r.value == PathPrefix(behaviour, req).value
    ensures r.Ok? && TotalValues(req.query) > 0 ==>
              r.value == PathPrefix(behaviour, req).value + ['?'] + Join(PairTexts(Pairs(req.query), enc), '&')
  {
    var prefix :- PathPrefix(behaviour, req);
    PairsCount(req.query);
    QuerySuffixJoin(Pairs(req.query), enc);
    Ok(prefix + QuerySuffix(Pairs(req.query), enc))
  }

  /**
   * What the URI path is, case by case, when there is no query string:
   * behind a load balancer the URI path; on the default API Gateway URL
   * "/" + stage + the URI path, or the bare URI path under `Exclude`; on a
   * custom domain the URI path when the base path is included, the part
   * after the base path when it is excluded.
   */
  lemma RequestUriCases(behaviour: BasePathBehaviour, req: Request, enc: string -> string)
    requires TotalValues(req.query) == 0
    ensures req.context.Alb? ==> RequestUri(behaviour, req, enc) == Ok(req.path)
    ensures req.context.ApiGateway? && IsDefaultApiGatewayUrl(req) ==>
              RequestUri(behaviour, req, enc)
              == Ok(if behaviour == Exclude then req.path else "/" + req.context.stage + req.path)
    ensures req.context.ApiGateway? && !IsDefaultApiGatewayUrl(req) && BasePath(req).Ok? ==>
              RequestUri(behaviour, req, enc)
              == Ok(if behaviour == Exclude then req.path[|BasePath(req).value|..] else req.path)
  {
    PairsCount(req.query);
    assert QuerySuffix(Pairs(req.query), enc) == [];
    if req.context.Alb? {
      AlbPaths(req);
      assert req.path + [] == req.path;
    } else if IsDefaultApiGatewayUrl(req) {
      DefaultUrlPaths(req);
      assert req.path + [] == req.path;
      assert "/" + req.context.stage + req.path + [] == "/" + req.context.stage + req.path;
    } else if BasePath(req).Ok? {
      CustomDomainRoundTrip(req);
      assert req.path + [] == req.path;
      assert req.path[|BasePath(req).value|..] + [] == req.path[|BasePath(req).value|..];
    }
  }

  /** The client of a lazy client, which must be ready (`client()`). */
  function ClientOf(lazy: LazyClient): (r: Result<Client, Panic>)
    ensures r.Ok? <==> lazy.Ready?
    ensures r.Ok? ==> r.value == lazy.client
    ensures r.Err? ==> r.error == ClientNotReady
  {
    match lazy
    case Ready(c) => Ok(c)
    case _ => Err(ClientNotReady)
  }

  /**
   * `create_rocket_request`, as a value: convert the method, build the URI,
   * take the client, copy the headers and the body, failing at the first
   * step that fails.
   */
  function RocketRequest(lazy: LazyClient, config: Config, req: Request, enc: string -> string): (r: Result<LocalRequest, Failure>)
    ensures r.Ok? <==> ToRocketMethod(req.verb).Ok? && RequestUri(config.basePathBehaviour, req, enc).Ok?
                       && lazy.Ready? && ConvertHeaders(req.headers).Ok?
    ensures r.Ok? ==> && MethodName(r.value.verb) == req.verb
                      && r.value.uri == RequestUri(config.basePathBehaviour, req, enc).value
                      && lazy == Ready(r.value.client)
                      && |r.value.headers| == |req.headers|
                      && (forall i :: 0 <= i < |req.headers| ==>
                            r.value.headers[i].name == req.headers[i].name
                            && HeaderValueToStr(req.headers[i].value) == Some(r.value.headers[i].value))
                      && r.value.body == BodyBytes(req.body)
    ensures ToRocketMethod(req.verb).Err? ==> r == Err(Raised(InvalidRequest("unknown method '" + req.verb + "'")))
    ensures ToRocketMethod(req.verb).Ok? && RequestUri(config.basePathBehaviour, req, enc).Err? ==>
              r == Err(Panicked(RequestUri(config.basePathBehaviour, req, enc).error))
    ensures ToRocketMethod(req.verb).Ok? && RequestUri(config.basePathBehaviour, req, enc).Ok? && !lazy.Ready? ==>
              r == Err(Panicked(ClientNotReady))
    ensures ToRocketMethod(req.verb).Ok? && RequestUri(config.basePathBehaviour, req, enc).Ok? && lazy.Ready?
            && ConvertHeaders(req.headers).Err? ==>
              r == Err(Raised(ConvertHeaders(req.headers).error))
    ensures r.Err? && r.error.Raised? ==> r.error.error.InvalidRequest?
  {
    match ToRocketMethod(req.verb)
    case Err(e) => Err(Raised(e))
    case Ok(m) =>
      match RequestUri(config.basePathBehaviour, req, enc)
      case Err(p) => Err(Panicked(p))
      case Ok(uri) =>
        match ClientOf(lazy)
        case Err(p) => Err(Panicked(p))
        case Ok(c) =>
          match ConvertHeaders(req.headers)
          case Err(e) => Err(Raised(e))
          case Ok(hs) => Ok(LocalRequest(c, m, uri, hs, BodyBytes(req.body)))
  }

  /** `process_request`: build the local request, dispatch it, translate the answer. */
  function Respond(lazy: LazyClient, config: Config, req: Request, enc: string -> string,
                   dispatch: LocalRequest -> LocalResponse): (r: Result<Response, Failure>)
    ensures RocketRequest(lazy, config, req, enc).Err? ==> r == Err(RocketRequest(lazy, config, req, enc).error)
    ensures RocketRequest(lazy, config, req, enc).Ok? ==>
              var res := CreateLambdaResponse(config, dispatch(RocketRequest(lazy, config, req, enc).value));
              && (r.Ok? <==> res.Ok?)
              && (r.Ok? ==> r.value == res.value)
              && (r.Err? ==> r.error == Raised(res.error))
  {
    var local :- RocketRequest(lazy, config, req, enc);
    match CreateLambdaResponse(config, dispatch(local))
    case Ok(res) => Ok(res)
    case Err(e) => Err(Raised(e))
  }

  // ------------------------------------------------------------ lazy client

  /** `LazyClient`: the Rocket to start from, a placeholder while starting, or the ready client. */
  datatype LazyClient = Placeholder | Uninitialized(rocket: Rocket) | Ready(client: Client)

  /**
   * The client that the first request starts: under `RemountAndInclude`
   * the routes are mounted again under the request's base path, unless that
   * path is empty; otherwise the Rocket is used as it is. Working out the
   * base path may panic.
   */
  function Initialise(behaviour: BasePathBehaviour, rocket: Rocket, req: Request): (r: Result<Client, Panic>)
    ensures r.Err? <==> behaviour == RemountAndInclude && BasePath(req).Err?
    ensures r.Err? ==> r.error == BasePath(req).error
    ensures r.Ok? ==> (r.value.rocket != rocket <==> behaviour == RemountAndInclude && BasePath(req).value != [])
    ensures r.Ok? && r.value.rocket != rocket ==> r.value == Untracked(Remount(rocket, BasePath(req).value))
    ensures r.Ok? && r.value.rocket == rocket ==> r.value == Untracked(rocket)
  {
    if behaviour == RemountAndInclude then
      var base :- BasePath(req);
      if base != [] then
        assert Remount(rocket, base).rocket == rocket;
        Ok(Untracked(Remount(rocket, base)))
      else Ok(Untracked(rocket))
    else Ok(Untracked(rocket))
  }

  /**
   * `ensure_client_ready` as a transition: the next state and the panic, if
   * any. A ready client is kept; an uninitialised one becomes ready, or stays
   * a placeholder when working out the base path panicked; a placeholder
   * means an earlier start was cut short, and panics again.
   */
  function EnsureReady(lazy: LazyClient, behaviour: BasePathBehaviour, req: Request): (r: (LazyClient, Option<Panic>))
    ensures r.1.None? <==> r.0.Ready?
    ensures lazy.Ready? ==> r == (lazy, None)
    ensures lazy.Placeholder? ==> r == (Placeholder, Some(InitialisationBegun))
    ensures lazy.Uninitialized? ==>
              match Initialise(behaviour, lazy.rocket, req)
              case Ok(c) => r == (Ready(c), None)
              case Err(p) => r == (Placeholder, Some(p))
  {
    match lazy
    case Uninitialized(rocket) =>
      (match Initialise(behaviour, rocket, req)
       case Ok(c) => (Ready(c), None)
       case Err(p) => (Placeholder, Some(p)))
    case Ready(_) => (lazy, None)
    case Placeholder => (Placeholder, Some(InitialisationBegun))
  }

  /**
   * Once a start has failed, the handler is poisoned: every later call
   * panics with `InitialisationBegun`. Once it has succeeded, every later
   * call keeps the same client and succeeds.
   */
  lemma EnsureReadyAfterwards(lazy: LazyClient, behaviour: BasePathBehaviour, first: Request, later: Request)
    ensures EnsureReady(lazy, behaviour, first).1.Some? ==>
              EnsureReady(EnsureReady(lazy, behaviour, first).0, behaviour, later) == (Placeholder, Some(InitialisationBegun))
    ensures EnsureReady(lazy, behaviour, first).1.None? ==>
              EnsureReady(EnsureReady(lazy, behaviour, first).0, behaviour, later) == (EnsureReady(lazy, behaviour, first).0, None)
  {
  }

  /** `RocketHandler`: the lazily started client and the configuration. */
  class RocketHandler {
    var client: LazyClient
    const config: Config

    constructor (client: LazyClient, config: Config)
      ensures this.client == client && this.config == config
    {
      this.client := client;
      this.config := config;
    }

    /** `ensure_client_ready`, which moves the client out (leaving a placeholder) before it starts it. */
    method EnsureClientReady(req: Request) returns (failure: Option<Panic>)
      modifies this
      ensures (client, failure) == EnsureReady(old(client), config.basePathBehaviour, req)
    {
      match client
      case Uninitialized(rocket) =>
        client := Placeholder;
        var started := rocket;
        if config.basePathBehaviour == RemountAndInclude {
          var base := BasePath(req);
          if base.Err? {
            return Some(base.error);
          }
          if base.value != [] {
            started := Remount(started, base.value);
          }
        }
        client := Ready(Untracked(started));
        failure := None;
      case Ready(_) =>
        failure := None;
      case Placeholder =>
        failure := Some(InitialisationBegun);
    }

    /** `client()`: the ready client, or a panic. */
    function Client(): (r: Result<Http.Client, Panic>)
      reads this
      ensures r.Ok? <==> client.Ready?
      ensures r.Ok? ==> r.value == client.client
    {
      ClientOf(client)
    }

    /** `get_path_and_query`: the path prefix chosen by the base-path behaviour, then the query loop. */
    method GetPathAndQuery(req: Request, enc: string -> string) returns (r: Result<string, Panic>)
      ensures r == RequestUri(config.basePathBehaviour, req, enc)
      ensures r.Ok? && TotalValues(req.query) == 0 ==> r.value == PathPrefix(config.basePathBehaviour, req).value
    {
      var prefix := match config.basePathBehaviour
                    case Include | RemountAndInclude => FullPath(req)
                    case Exclude => ApiPath(req);
      if prefix.Err? {
        return Err(prefix.error);
      }
      var uri := AppendQuery(prefix.value, req.query, enc);
      r := Ok(uri);
    }

    /** `create_rocket_request` */
    method CreateRocketRequest(req: Request, enc: string -> string) returns (r: Result<LocalRequest, Failure>)
      ensures r == RocketRequest(client, config, req, enc)
    {
      var m := ToRocketMethod(req.verb);
      if m.Err? {
        return Err(Raised(m.error));
      }
      var uri := GetPathAndQuery(req, enc);
      if uri.Err? {
        return Err(Panicked(uri.error));
      }
      var c := Client();
      if c.Err? {
        return Err(Panicked(c.error));
      }
      var hs := CopyHeaders(req.headers);
      if hs.Err? {
        return Err(Raised(hs.error));
      }
      r := Ok(LocalRequest(c.value, m.value, uri.value, hs.value, BodyBytes(req.body)));
    }

    /** `run`: make sure the client is ready, then process the request. */
    method Run(req: Request, enc: string -> string, dispatch: LocalRequest -> LocalResponse)
      returns (r: Result<Response, Failure>)
      modifies this
      ensures client == EnsureReady(old(client), config.basePathBehaviour, req).0
      ensures EnsureReady(old(client), config.basePathBehaviour, req).1.Some? ==>
                r == Err(Panicked(EnsureReady(old(client), config.basePathBehaviour, req).1.value))
      ensures EnsureReady(old(client), config.basePathBehaviour, req).1.None? ==>
                r == Respond(client, config, req, enc, dispatch)
    {
      var failure := EnsureClientReady(req);
      if failure.Some? {
        return Err(Panicked(failure.value));
      }
      var local := CreateRocketRequest(req, enc);
      if local.Err? {
        return Err(local.error);
      }
      var res := CreateLambdaResponse(config, dispatch(local.value));
      if res.Err? {
        return Err(Raised(res.error));
      }
      r := Ok(res.value);
    }
  }
}
