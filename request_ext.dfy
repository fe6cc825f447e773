/**
 * The request extension of request_ext.rs: the API Gateway base path of a
 * Lambda request, the path the application sees, and the full path. A
 * `panic!` or `expect` here becomes an `Err` carrying the `Panic`.
 */
module RequestExt {
  import opened Wrappers
  import opened Strings
  import opened Utf8
  import opened Errors
  import opened Http

  const DefaultHostSuffix: string := ".amazonaws.com"

  /** The last `|suffix|` bytes of `v` are the characters of `suffix`. */
  predicate BytesEndWith(v: seq<byte>, suffix: string) {
    |suffix| <= |v| && forall k :: 0 <= k < |suffix| ==> v[|v| - |suffix| + k] as int == suffix[k] as int
  }

  /** `.and_then(|h| h.to_str().ok()).unwrap_or_default()`: the host value as text, "" when missing or not text. */
  function HostText(host: Option<seq<byte>>): string {
    match host
    case None => []
    case Some(v) => HeaderValueToStr(v).GetOr([])
  }

  /** The host text ends with `suffix` exactly when there is a host value, it is text, and its bytes end with `suffix`. */
  lemma HostTextEndsWith(host: Option<seq<byte>>, suffix: string)
    requires suffix != []
    ensures EndsWith(HostText(host), suffix) <==>
              exists v :: host == Some(v) && (forall i :: 0 <= i < |v| ==> IsVisibleAscii(v[i])) && BytesEndWith(v, suffix)
  {
    if host.Some? && HeaderValueToStr(host.value).Some? {
      TextEndsWithBytes(host.value, suffix);
    }
  }

  /**
   * `is_default_api_gateway_url`: the request reached API Gateway through its
   * default `execute-api` URL, that is, the first `Host` header is valid
   * text ending in ".amazonaws.com". A missing or non-text `Host` counts as
   * the empty string and so gives false.
   */
  function IsDefaultApiGatewayUrl(req: Request): (r: bool)
    ensures r <==> exists v :: FirstHeader(req.headers, "host") == Some(v)
                               && (forall i :: 0 <= i < |v| ==> IsVisibleAscii(v[i]))
                               && BytesEndWith(v, DefaultHostSuffix)
  {
    HostTextEndsWith(FirstHeader(req.headers, "host"), DefaultHostSuffix);
    EndsWith(HostText(FirstHeader(req.headers, "host")), DefaultHostSuffix)
  }

  /** A header value read as text ends with `suffix` exactly when its bytes do. */
  lemma TextEndsWithBytes(v: seq<byte>, suffix: string)
    requires HeaderValueToStr(v).Some?
    ensures EndsWith(HeaderValueToStr(v).value, suffix) <==> BytesEndWith(v, suffix)
  {
    var s := HeaderValueToStr(v).value;
    if BytesEndWith(v, suffix) {
      assert forall k :: 0 <= k < |suffix| ==> s[|s| - |suffix|..][k] == suffix[k];
    }
    if EndsWith(s, suffix) {
      forall k | 0 <= k < |suffix|
        ensures v[|v| - |suffix| + k] as int == suffix[k] as int
      {
        assert s[|s| - |suffix|..][k] == s[|s| - |suffix| + k];
      }
    }
  }

  /** The parameter name inside a `{name}` or `{name+}` segment: drop the `{` and the closing `}` or `+}`. */
  function ParamName(segment: string): (name: string)
    requires |segment| >= 2 && segment[0] == '{'
    ensures EndsWith(segment, "+}") ==> segment == "{" + name + "+}"
    ensures !EndsWith(segment, "+}") ==> segment == "{" + name + [segment[|segment| - 1]]
  {
    var end := if EndsWith(segment, "+}") then 2 else 1;
    segment[1..|segment| - end]
  }

  /** `{name}` and `{name+}` both name the parameter `name`. */
  lemma ParamNameOfTemplate(name: string)
    requires name == [] || name[|name| - 1] != '+'
    ensures ParamName("{" + name + "}") == name
    ensures ParamName("{" + name + "+}") == name
  {
    var s1 := "{" + name + "}";
    var s2 := "{" + name + "+}";
    assert s1[1..|s1| - 1] == name;
    assert s2[1..|s2| - 2] == name;
    if name != [] {
      assert s1[|s1| - 2..] == [name[|name| - 1], '}'];
    } else {
      assert |s1| == 2 && s1[0] == '{';
    }
  }

  /**
   * One segment of `populate_resource_path`: a segment that starts with `{`
   * is replaced by the value of the parameter it names; any other segment is
   * kept. A missing parameter panics (`expect`), and so does the lone
   * segment "{", whose slice `[1..0]` ends before it starts.
   */
  function PopulateSegment(segment: string, parameters: map<string, string>): (r: Result<string, Panic>)
    ensures !StartsWith(segment, "{") ==> r == Ok(segment)
    ensures segment == "{" ==> r == Err(SegmentSliceOutOfRange(segment))
    ensures StartsWith(segment, "{") && |segment| >= 2 ==>
              if ParamName(segment) in parameters then r == Ok(parameters[ParamName(segment)])
              else r == Err(PathParameterMissing(ParamName(segment)))
  {
    if !StartsWith(segment, "{") then Ok(segment)
    else if |segment| < 2 then Err(SegmentSliceOutOfRange(segment))
    else
      var name := ParamName(segment);
      if name in parameters then Ok(parameters[name]) else Err(PathParameterMissing(name))
  }

  /**
   * The segments mapped one by one, stopping at the first panic: on success
   * there are as many segments as before, each the populated form of the
   * original; otherwise the panic is that of the first segment that failed.
   */
  function PopulateSegments(segments: seq<string>, parameters: map<string, string>): (r: Result<seq<string>, Panic>)
    ensures r.Ok? <==> forall i :: 0 <= i < |segments| ==> PopulateSegment(segments[i], parameters).Ok?
    ensures r.Ok? ==> |r.value| == |segments|
                      && forall i :: 0 <= i < |segments| ==> r.value[i] == PopulateSegment(segments[i], parameters).value
    ensures r.Err? ==> exists i :: 0 <= i < |segments| && PopulateSegment(segments[i], parameters) == Err(r.error)
                                   && forall j :: 0 <= j < i ==> PopulateSegment(segments[j], parameters).Ok?
    decreases |segments|
  {
    if segments == [] then Ok([])
    else
      match PopulateSegment(segments[0], parameters)
      case Err(p) => Err(p)
      case Ok(first) =>
        var rest := PopulateSegments(segments[1..], parameters);
        assert forall i :: 1 <= i < |segments| ==> segments[i] == segments[1..][i - 1];
        match rest
        case Err(p) =>
          ghost var k :| 0 <= k < |segments[1..]| && PopulateSegment(segments[1..][k], parameters) == Err(p)
                         && forall j :: 0 <= j < k ==> PopulateSegment(segments[1..][j], parameters).Ok?;
          assert PopulateSegment(segments[k + 1], parameters) == Err(p);
          Err(p)
        case Ok(tail) =>
          Ok([first] + tail)
  }

  /** `populate_resource_path`: split the template on `/`, populate each segment, join with `/`. */
  function PopulateResourcePath(resourcePath: string, parameters: map<string, string>): (r: Result<string, Panic>)
    ensures r.Ok? <==> PopulateSegments(Split(resourcePath, '/'), parameters).Ok?
    ensures r.Ok? ==> r.value == Join(PopulateSegments(Split(resourcePath, '/'), parameters).value, '/')
  {
    var segments :- PopulateSegments(Split(resourcePath, '/'), parameters);
    Ok(Join(segments, '/'))
  }

  /** A template none of whose segments starts with `{` is its own populated form. */
  lemma PopulateWithoutParameters(resourcePath: string, parameters: map<string, string>)
    requires forall i :: 0 <= i < |Split(resourcePath, '/')| ==> !StartsWith(Split(resourcePath, '/')[i], "{")
    ensures PopulateResourcePath(resourcePath, parameters) == Ok(resourcePath)
  {
    var segments := Split(resourcePath, '/');
    var populated := PopulateSegments(segments, parameters);
    assert populated.Ok?;
    assert populated.value == segments;
  }

  /**
   * `base_path`: empty behind a load balancer; "/" + stage on the default
   * API Gateway URL; on a custom domain the part of the URI path before the
   * first occurrence of the populated resource path, panicking when it does
   * not occur.
   */
  function BasePath(req: Request): (r: Result<string, Panic>)
    ensures req.context.Alb? ==> r == Ok([])
    ensures req.context.ApiGateway? && IsDefaultApiGatewayUrl(req) ==> r == Ok("/" + req.context.stage)
    ensures req.context.ApiGateway? && !IsDefaultApiGatewayUrl(req) ==>
              match PopulateResourcePath(req.context.resourcePath, req.pathParameters)
              case Err(p) => r == Err(p)
              case Ok(segment) =>
                && (r.Ok? <==> exists j: nat :: OccursAt(req.path, segment, j))
                && (r.Ok? ==> StartsWith(req.path, r.value) && OccursAt(req.path, segment, |r.value|)
                              && forall j: nat :: j < |r.value| ==> !OccursAt(req.path, segment, j))
                && (r.Err? ==> r.error == SegmentNotFound(segment, req.path))
    ensures r.Ok? && !IsDefaultApiGatewayUrl(req) ==> StartsWith(req.path, r.value)
  {
    match req.context
    case ApiGateway(stage, resourcePath) =>
      if IsDefaultApiGatewayUrl(req) then Ok("/" + stage)
      else
        var segment :- PopulateResourcePath(resourcePath, req.pathParameters);
        (match Find(req.path, segment)
         case Some(i) =>
           assert req.path[..i] == req.path[..i][..i];
           Ok(req.path[..i])
         case None => Err(SegmentNotFound(segment, req.path)))
    case Alb => Ok([])
  }

  /** `api_path`: the whole URI path behind a load balancer or on the default URL; otherwise the URI path with the base path cut off its front. */
  function ApiPath(req: Request): (r: Result<string, Panic>)
    ensures req.context.Alb? || IsDefaultApiGatewayUrl(req) ==> r == Ok(req.path)
    ensures !(req.context.Alb? || IsDefaultApiGatewayUrl(req)) ==>
              r == (match BasePath(req) case Err(p) => Err(p) case Ok(b) => Ok(req.path[|b|..]))
  {
    if req.context.Alb? || IsDefaultApiGatewayUrl(req) then Ok(req.path)
    else
      var base :- BasePath(req);
      Ok(req.path[|base|..])
  }

  /** `full_path`: the base path followed by the API path. */
  function FullPath(req: Request): (r: Result<string, Panic>)
    ensures r.Ok? <==> BasePath(req).Ok? && ApiPath(req).Ok?
    ensures r.Ok? ==> r.value == BasePath(req).value + ApiPath(req).value
  {
    var base :- BasePath(req);
    var api :- ApiPath(req);
    Ok(base + api)
  }

  /** Behind a load balancer there is no base path, and the full path is the URI path. */
  lemma AlbPaths(req: Request)
    requires req.context.Alb?
    ensures BasePath(req) == Ok([]) && ApiPath(req) == Ok(req.path) && FullPath(req) == Ok(req.path)
  {
    assert BasePath(req) == Ok([]);
    assert ApiPath(req) == Ok(req.path);
    assert [] + req.path == req.path;
  }

  /** On the default URL the base path is "/" + stage and is put in front of the whole URI path. */
  lemma DefaultUrlPaths(req: Request)
    requires req.context.ApiGateway? && IsDefaultApiGatewayUrl(req)
    ensures BasePath(req) == Ok("/" + req.context.stage)
    ensures ApiPath(req) == Ok(req.path)
    ensures FullPath(req) == Ok("/" + req.context.stage + req.path)
  {
  }

  /**
   * On a custom domain the base path and the API path split the URI path in
   * two: together they give it back, and the API path starts with the
   * populated resource path.
   */
  lemma CustomDomainRoundTrip(req: Request)
    requires req.context.ApiGateway? && !IsDefaultApiGatewayUrl(req) && BasePath(req).Ok?
    ensures PopulateResourcePath(req.context.resourcePath, req.pathParameters).Ok?
    ensures FullPath(req) == Ok(req.path)
    ensures StartsWith(ApiPath(req).value, PopulateResourcePath(req.context.resourcePath, req.pathParameters).value)
  {
    var base := BasePath(req).value;
    CustomDomainBase(req);
    var segment := PopulateResourcePath(req.context.resourcePath, req.pathParameters).value;
    PrefixSplit(req.path, base, segment);
    assert ApiPath(req) == Ok(req.path[|base|..]);
  }

  /** On a custom domain the base path is a prefix of the URI path right before the populated resource path. */
  lemma CustomDomainBase(req: Request)
    requires req.context.ApiGateway? && !IsDefaultApiGatewayUrl(req) && BasePath(req).Ok?
    ensures PopulateResourcePath(req.context.resourcePath, req.pathParameters).Ok?
    ensures StartsWith(req.path, BasePath(req).value)
    ensures OccursAt(req.path, PopulateResourcePath(req.context.resourcePath, req.pathParameters).value, |BasePath(req).value|)
  {
    assert PopulateResourcePath(req.context.resourcePath, req.pathParameters).Ok?;
  }

  /** A prefix followed by the rest is the whole, and the rest starts with what occurs right after the prefix. */
  lemma PrefixSplit(s: string, prefix: string, pat: string)
    requires StartsWith(s, prefix) && OccursAt(s, pat, |prefix|)
    ensures prefix + s[|prefix|..] == s
    ensures StartsWith(s[|prefix|..], pat)
  {
    assert s[|prefix|..][..|pat|] == s[|prefix|..|prefix| + |pat|];
  }

  /**
   * A greedy proxy template "/{name+}" populates to "/" followed by the
   * parameter's value.
   */
  lemma PopulateProxyTemplate(name: string, value: string)
    requires '/' !in name && (name == [] || name[|name| - 1] != '+')
    ensures PopulateResourcePath("/{" + name + "+}", map[name := value]) == Ok("/" + value)
  {
    var segment := "{" + name + "+}";
    var template := ["", segment];
    assert '/' !in segment by {
      assert forall k :: 0 <= k < |segment| ==> segment[k] == '{' || segment[k] == '+' || segment[k] == '}' || segment[k] in name;
    }
    SplitJoin(template, '/');
    assert Join(template, '/') == "/{" + name + "+}";
    ParamNameOfTemplate(name);
    var parameters := map[name := value];
    assert StartsWith(segment, "{");
    assert PopulateSegment(segment, parameters) == Ok(value);
    assert PopulateSegment("", parameters) == Ok("");
    var populated := PopulateSegments(template, parameters).value;
    assert populated == ["", value];
    assert Join(populated, '/') == "/" + value;
  }
}
