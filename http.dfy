/**
 * The values the core receives from and hands to its libraries: the
 * Lambda request (`lambda_http::Request`), the Lambda response body, the
 * Rocket method, headers, local request and local response. Rocket itself
 * and its client are opaque: the model only records which Rocket a client
 * was built from and whether its routes were mounted again under a base path.
 */
module Http {
  import opened Wrappers
  import opened Strings
  import opened Utf8

  /** `lambda_http::request::RequestContext`, reduced to what the core reads. */
  datatype RequestContext = ApiGateway(stage: string, resourcePath: string) | Alb

  /** One entry of the request's `HeaderMap`: the (lowercase) name and the raw value bytes. */
  datatype RequestHeader = RequestHeader(name: string, value: seq<byte>)

  /** One key of the query-string map with all of its values, in order. */
  datatype QueryEntry = QueryEntry(key: string, values: seq<string>)

  /** `lambda_http::Body`. */
  datatype Body = Empty | Text(text: string) | Binary(bytes: seq<byte>)

  /**
   * A `lambda_http::Request`: method token (`verb`), URI path, headers in iteration
   * order, query-string parameters in the map's iteration order, path
   * parameters, request context and body.
   */
  datatype Request = Request(
    verb: string,
    path: string,
    headers: seq<RequestHeader>,
    query: seq<QueryEntry>,
    pathParameters: map<string, string>,
    context: RequestContext,
    body: Body)

  /** `HeaderValue::to_str`: the value as text when every byte is visible ASCII or a tab. */
  predicate IsVisibleAscii(b: byte) {
    (32 <= b < 127) || b == 9
  }

  function HeaderValueToStr(v: seq<byte>): (r: Option<string>)
    ensures r.Some? <==> forall i :: 0 <= i < |v| ==> IsVisibleAscii(v[i])
    ensures r.Some? ==> |r.value| == |v| && forall i :: 0 <= i < |v| ==> r.value[i] as int == v[i] as int
  {
    if forall i :: 0 <= i < |v| ==> IsVisibleAscii(v[i]) then
      Some(seq(|v|, i requires 0 <= i < |v| => (v[i] as int) as char))
    else None
  }

  /** `HeaderMap::get(name)`: the first value stored under `name`. */
  function FirstHeader(hs: seq<RequestHeader>, name: string): (r: Option<seq<byte>>)
    ensures r.Some? <==> exists i :: 0 <= i < |hs| && hs[i].name == name
    ensures r.Some? ==> exists i :: 0 <= i < |hs| && hs[i].name == name && hs[i].value == r.value
                                    && forall j :: 0 <= j < i ==> hs[j].name != name
  {
    if hs == [] then None
    else if hs[0].name == name then Some(hs[0].value)
    else
      var r := FirstHeader(hs[1..], name);
      assert forall i :: 1 <= i < |hs| ==> hs[i] == hs[1..][i - 1];
      if r.Some? then
        ghost var k :| 0 <= k < |hs[1..]| && hs[1..][k].name == name && hs[1..][k].value == r.value
                       && forall j :: 0 <= j < k ==> hs[1..][j].name != name;
        assert hs[k + 1] == hs[1..][k];
        r
      else r
  }

  /**
   * The bytes `LocalRequest::set_body` receives from a Lambda body: none for
   * an empty body, the UTF-8 bytes of a text (which decode back to it), the
   * bytes of a binary body unchanged.
   */
  function BodyBytes(b: Body): (r: seq<byte>)
    ensures b.Empty? ==> r == []
    ensures b.Text? ==> Decode(r) == Some(b.text)
    ensures b.Binary? ==> r == b.bytes
  {
    match b
    case Empty => []
    case Text(s) =>
      DecodeEncode(s);
      Encode(s)
    case Binary(bytes) => bytes
  }

  /** `rocket::http::Method`. */
  datatype Method = Get | Put | Post | Delete | Options | Head | Trace | Connect | Patch

  /** An opaque Rocket instance, possibly with its routes mounted once more under a base path. */
  datatype Rocket = Ignited(app: nat) | Remounted(rocket: Rocket, basePath: string)

  /** `rocket.mount(base_path, rocket.routes().cloned().collect())` */
  function Remount(rocket: Rocket, basePath: string): Rocket {
    Remounted(rocket, basePath)
  }

  /** `rocket::local::Client` built from a Rocket instance. */
  datatype Client = Client(rocket: Rocket)

  /** `Client::untracked(rocket)`; its launch error is not modelled. */
  function Untracked(rocket: Rocket): Client {
    Client(rocket)
  }

  /** `rocket::http::Header` */
  datatype Header = Header(name: string, value: string)

  /** `rocket::local::LocalRequest` as built by `client.req(method, uri)`, `add_header` and `set_body`. */
  datatype LocalRequest = LocalRequest(client: Client, verb: Method, uri: string, headers: seq<Header>, body: seq<byte>)

  /** `rocket::local::LocalResponse`: status code, headers in iteration order, and the body if there is one. */
  datatype LocalResponse = LocalResponse(status: int, headers: seq<Header>, body: Option<seq<byte>>)

  /** `lambda_http::Response<Body>` */
  datatype Response = Response(status: int, headers: seq<Header>, body: Body)

  /** Rocket's `HeaderMap::get_one(name)`: the first value whose name matches `name` ignoring ASCII case. */
  function GetOne(hs: seq<Header>, name: string): (r: Option<string>)
    ensures r.None? <==> forall i :: 0 <= i < |hs| ==> ToLower(hs[i].name) != ToLower(name)
    ensures r.Some? ==> exists i :: 0 <= i < |hs| && ToLower(hs[i].name) == ToLower(name) && hs[i].value == r.value
                                    && forall j :: 0 <= j < i ==> ToLower(hs[j].name) != ToLower(name)
  {
    if hs == [] then None
    else if ToLower(hs[0].name) == ToLower(name) then Some(hs[0].value)
    else
      var r := GetOne(hs[1..], name);
      assert forall i :: 1 <= i < |hs| ==> hs[i] == hs[1..][i - 1];
      if r.Some? then
        ghost var k :| 0 <= k < |hs[1..]| && ToLower(hs[1..][k].name) == ToLower(name) && hs[1..][k].value == r.value
                       && forall j :: 0 <= j < k ==> ToLower(hs[1..][j].name) != ToLower(name);
        assert hs[k + 1] == hs[1..][k];
        r
      else r
  }
}
