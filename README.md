# rocket-lamb in Dafny

rocket-lamb lets a Rocket web application answer AWS Lambda HTTP events,
whether they come from API Gateway or an Application Load Balancer (ALB).
For each event the crate does four things:

- It builds a Rocket local request: the method, a URI made of a path prefix
  and a query string, the headers, and the body.
- It has the Rocket application answer that request.
- It turns the Rocket response into a Lambda response. The body is sent as
  text or as binary, depending on the response's content type.
- On the first event it starts the Rocket client. Under the default
  behaviour it first mounts the routes again under the API Gateway base path.

This project models that translation logic. It also models the builder that
configures it, the configuration record, and the error type. It then proves
what the translation promises.

Modules (one per source file, plus shared value types):

- `Wrappers`: `Option` and `Result`.
- `Strings`: the `str` operations the core uses. These are `find`, `split`,
  `join`, `starts_with`/`ends_with` and ASCII lowercasing.
- `Utf8`: UTF-8 encoding and the strict decoding used by `into_string`. It
  follows RFC 3629, with no overlong forms, no surrogates, and nothing above
  U+10FFFF.
- `Errors`: `RocketLambError` and its display text; the `Panic` reasons;
  `Failure`, which is an error or a panic.
- `Http`: the values exchanged with lambda_http, http and Rocket: the
  request and its context, header values as bytes, query entries, bodies,
  methods, local requests and responses. Rocket instances and clients are
  opaque values.
- `Configuration`: `Config`, `BasePathBehaviour`, `ResponseType` and the
  response-type lookup.
- `RequestExt`: `base_path`, `api_path`, `full_path`,
  `is_default_api_gateway_url` and `populate_resource_path`.
- `Handler`: the handler of handler.rs. It has the lazily started client, as
  a class with a mutable `client` field, and the request and response
  translation.
- `Legacy`: the older handler in lib.rs. It has a ready client, uses the URI
  path as it is, and sends text-only responses.
- `Builder`: `RocketHandlerBuilder`, a class whose setters update its
  `config` field.

How foreign behaviour is modelled:

- A `panic!`, `expect`, `unwrap` or out-of-range slice in the core becomes
  an `Err` carrying a `Panic` value, except for the panics listed under
  "## Left out".
- `Uri::percent_encode` is a parameter `enc`.
- Dispatching a local request to the Rocket application is a parameter
  `dispatch`.
- The iteration order of the query-string map is the order of a sequence of
  `(key, values)` entries.
- `HeaderValue::to_str` succeeds exactly when every byte is visible ASCII or
  a tab, as in the http crate.
- A request's header names are lowercase and its query-string keys are
  distinct, as the http crate's `HeaderMap` and lambda_http's
  `StrMap` guarantee. The model's request type does not enforce either.
  The contracts hold for every value of the type, but only values that
  meet both correspond to requests the crate can receive.

Points where the model has to decide how to read the code:

- `include_api_gateway_base_path(setting)` in `src/builder.rs:174-177`
  assigns a field `include_api_gateway_base_path` that `Config`
  (`src/config.rs:4-8`) does not have. Only `base_path_behaviour` exists.
  The model makes `true` select `RemountAndInclude`, which is the documented
  default: mount under the base path and prefix it. It makes `false` select
  `Exclude`, as `tests/path_tests.rs:39-52` expects from
  `include_api_gateway_base_path(false)`. This is an interpretation.
- Without a content-type header, `unwrap_or_default` produces "". The code
  then looks "" up in the map. The default response type therefore applies
  only if "" was never registered.
- `ensure_client_ready` replaces the client with `Placeholder` before it
  works out the base path. A panic in `base_path` therefore leaves
  `Placeholder` behind, and every later call panics with "LazyClient has previously
  begun initialiation." (the spelling is the source's). The model keeps this behaviour.
- lib.rs does not declare the modules of the newer handler. Its
  `to_rocket_method`, query loop and header loop are the same code as
  handler.rs's. They are modelled once, in `Handler`, and `Legacy` calls
  them.

## Model

| member | source | states |
|---|---|---|
| Errors.Display | src/error.rs:1-7 | An `InvalidRequest` displays as "could not transform request: " followed by its message. An `InvalidResponse` displays as "could not transform response: " followed by its message. |
| Errors.DisplayInjective | src/error.rs:1-7 | Two errors with the same display text are equal: the text gives the variant and the whole message. |
| Strings.StartsWith | src/request_ext.rs:65 | `str::starts_with`: true exactly when the prefix is no longer than the string and matches it character by character. |
| Strings.EndsWith | src/request_ext.rs:57 | `str::ends_with`: true exactly when the suffix is no longer than the string and matches its last characters one by one. |
| Strings.Join | src/request_ext.rs:76 | Joining no segments gives "". Otherwise the result starts with the first segment. |
| Strings.SplitFirst | src/handler.rs:97-98 | `split(sep).next()` is a prefix of the string without `sep`, and it is followed by `sep` or by the end of the string. |
| Strings.Find | src/request_ext.rs:30 | `str::find`: the first index where the pattern occurs, or none exactly when it occurs nowhere. |
| Strings.Split | src/request_ext.rs:62-63 | `str::split` on a character gives at least one segment. No segment holds the separator. Joining the segments with it gives back the input. |
| Strings.SplitJoin | src/request_ext.rs:62-76 | Splitting a join of at least one separator-free segment gives back those segments. |
| Strings.SplitFree | src/request_ext.rs:62-63 | A string without the separator splits into itself alone. |
| Strings.SplitAfter | src/handler.rs:97-98 | Splitting a + sep + t, where a has no separator, gives a followed by the split of t. |
| Strings.JoinAppend | src/request_ext.rs:75-76 | Joining one more segment appends the separator and that segment. |
| Strings.ToLower | src/builder.rs:130 | Lowercasing keeps the length and lowercases each character on its own. |
| Strings.ToLowerIdempotent | src/builder.rs:130 | Lowercasing twice is lowercasing once. |
| Utf8.Encode | src/handler.rs:79 | The UTF-8 encoding takes between one and four bytes per character. ASCII text is encoded byte for byte. |
| Utf8.Decode | src/handler.rs:104 | A decoded text has at most as many characters as the input has bytes. ASCII bytes always decode, one character per byte, with the same codes. |
| Utf8.DecodeFirst | src/handler.rs:103-106 | A decoded first character uses between 1 and the available number of bytes. |
| Utf8.DecodeEncode | src/handler.rs:103-106 | Every text decodes back from its UTF-8 encoding. |
| Utf8.EncodeDecode | src/handler.rs:103-106 | Bytes that decode re-encode to exactly the same bytes. |
| Utf8.DecodeIffEncoding | src/handler.rs:103-106 | Bytes decode exactly when they are the encoding of some text, and then they decode to that text. |
| Utf8.EncodeInjective | src/handler.rs:103-106 | Different texts have different encodings. |
| Http.HeaderValueToStr | src/handler.rs:74 | `to_str` succeeds exactly when every byte is visible ASCII or a tab. The text then has the same length and the same code at every position. |
| Http.FirstHeader | src/request_ext.rs:53-54 | `HeaderMap::get` finds a value exactly when some header has the name, and it is the value of the first such header. |
| Http.BodyBytes | src/handler.rs:79 | `set_body` receives no bytes for an empty body. A text body gives bytes that decode back to that text. A binary body gives its bytes unchanged. |
| Http.GetOne | src/handler.rs:93-95 | `get_one` ignores ASCII case. It gives none exactly when no name matches, and otherwise the value of the first match. |
| Configuration.Default | src/config.rs:17-25 | The default config has response type `Text`, no overrides, and `RemountAndInclude`. |
| Configuration.ResponseTypeFor | src/builder.rs:127-133 | The answer is the override stored under the lowercased content type, or the default when there is none. |
| Configuration.WithResponseType | src/builder.rs:150-155 | Registering a type adds the lowercased key and leaves the default and the behaviour alone. |
| Configuration.ResponseTypeCaseInsensitive | src/builder.rs:114 | Content types that lowercase alike get the same response type. |
| Configuration.ResponseTypeForLowered | src/builder.rs:127-133 | Looking up the lowercased content type gives the same answer as looking up the content type. |
| Configuration.WithResponseTypeLookup | src/builder.rs:150-155 | After registration, every spelling of that type gives the new type. Every other content type keeps its earlier answer. |
| Configuration.WithDefaultLookup | src/builder.rs:107-110 | A new default changes the answer only for content types without an override. |
| RequestExt.IsDefaultApiGatewayUrl | src/request_ext.rs:52-58 | True exactly when the first Host header is valid text that ends in ".amazonaws.com". A missing or non-text Host gives false. The body tests `HostText`, the model of `.and_then(to_str().ok()).unwrap_or_default()`, which is "" for a missing or non-text Host. |
| RequestExt.HostTextEndsWith | src/request_ext.rs:53-57 | The host text ends with a non-empty suffix exactly when there is a Host value, it is text, and its bytes end with the suffix. |
| RequestExt.TextEndsWithBytes | src/request_ext.rs:55-57 | A header value read as text ends with a suffix exactly when its bytes do. |
| RequestExt.ParamName | src/request_ext.rs:66-67 | For a segment starting with "{", the name is what lies between "{" and a final "+}", or else between "{" and the last character. |
| RequestExt.ParamNameOfTemplate | src/request_ext.rs:66-67 | Both "{name}" and "{name+}" name the parameter `name`. |
| RequestExt.PopulateSegment | src/request_ext.rs:64-73 | A segment not starting with "{" is kept. "{p}" and "{p+}" become the value of p, and a missing p panics. The lone "{" panics on its slice. |
| RequestExt.PopulateSegments | src/request_ext.rs:62-75 | The result is Ok exactly when every segment populates. It then has the same number of segments, each populated in place. Otherwise the panic is that of the first failing segment. |
| RequestExt.PopulateResourcePath | src/request_ext.rs:60-77 | The template is split on "/", populated segment by segment, and joined with "/". |
| RequestExt.PopulateWithoutParameters | src/request_ext.rs:62-76 | A template with no "{" segment populates to itself. |
| RequestExt.PopulateProxyTemplate | src/request_ext.rs:60-77 | "/{name+}" populates to "/" followed by the parameter's value. |
| RequestExt.BasePath | src/request_ext.rs:18-41 | ALB gives "". The default URL gives "/" + stage. A custom domain gives the URI path before the first occurrence of the populated resource path. It panics when that path does not occur, or when populating it panics. |
| RequestExt.ApiPath | src/request_ext.rs:43-49 | ALB and the default URL give the whole URI path. Otherwise the base path is cut off the front, or its panic is passed on. |
| RequestExt.FullPath | src/request_ext.rs:10-14 | Ok exactly when both parts are, and then the base path followed by the API path. |
| RequestExt.AlbPaths | src/request_ext.rs:39 | Behind an ALB the base path is empty, and the API path and full path are the URI path. |
| RequestExt.DefaultUrlPaths | src/request_ext.rs:25-26 | On the default URL the base path is "/" + stage, the API path is the URI path, and the full path is "/" + stage + URI path. |
| RequestExt.CustomDomainBase | src/request_ext.rs:28-31 | On a custom domain with a base path, the resource path populates, and the base path is a prefix of the URI path right before the populated resource path. |
| RequestExt.CustomDomainRoundTrip | src/request_ext.rs:28-31 | On a custom domain with a base path, the full path is the URI path, and the API path starts with the populated resource path. |
| Handler.ToRocketMethod | src/handler.rs:137-152 | Exactly the nine standard method tokens convert, each to the method of that name. Every other token is `InvalidRequest("unknown method '…'")`. |
| Handler.ToRocketMethodIff | src/handler.rs:137-152 | A token converts to a method exactly when it is that method's name, so the map is one-to-one. |
| Handler.PairTexts | src/handler.rs:124-129 | One `key=value` text per pair, in order, with both sides percent-encoded. |
| Handler.KeyPairs | src/handler.rs:123 | Every value of one key, paired with the key, in order. |
| Handler.PairsCount | src/handler.rs:121-132 | One pair is emitted per value, so the pair count is the total number of values. |
| Handler.PairsAt | src/handler.rs:121-132 | The j-th value of the i-th key is emitted at position (values of earlier keys) + j. |
| Handler.QuerySuffixJoin | src/handler.rs:121-132 | The suffix is empty without pairs. Otherwise it is "?" followed by the pair texts joined with "&". |
| Handler.QuerySuffixSplits | src/handler.rs:121-132 | If the encoder never produces "&", then splitting everything after "?" on "&" gives back exactly the pair texts. |
| Handler.AppendQuery | src/handler.rs:119-133 | The query loop appends `QuerySuffix` of all pairs, the text it builds one pair at a time, each pair after its separator. With no values the URI is unchanged. Otherwise it appends "?" and the pair texts joined with "&". |
| Handler.AppendValues | src/handler.rs:123-131 | The inner loop appends every value of one key, each after the current separator. |
| Handler.ConvertHeaders | src/handler.rs:73-78 | Ok exactly when every header value is text, and then every header is copied in order with its text value. Otherwise the error is `InvalidRequest("invalid value for header '…'")` for the first header that is not text. |
| Handler.CopyHeaders | src/handler.rs:73-78 | The header loop returns at the first bad value and computes `ConvertHeaders`. |
| Handler.ContentTypeOf | src/handler.rs:93-98 | Without a content-type header the media type is "". Otherwise it is a prefix of the content-type value, it holds no ";", and it is followed by ";" or by the end. |
| Handler.SelectResponseType | src/handler.rs:93-101 | The response type is the override stored under the lowercased media type, or the default when there is none. |
| Handler.MissingContentTypeUsesDefault | src/handler.rs:93-101 | Without a content-type header, the default applies unless "" was registered. |
| Handler.SelectIgnoresParameters | src/handler.rs:93-101 | For "media;parameters", only the media type is looked up. |
| Handler.ResponseBody | src/handler.rs:102-109 | No body gives `Empty`. `Binary` passes the bytes through. `Text` succeeds exactly when the bytes are UTF-8, and then gives the text they encode. Otherwise it gives `InvalidResponse("response body was not text")`. |
| Handler.CreateLambdaResponse | src/handler.rs:83-112 | The status and every header are copied, and the body follows the rules above for the response type of its content type. There is no fallback to binary. |
| Handler.RequestUriCases | src/handler.rs:114-119 | With no query values the URI is as follows. Behind an ALB it is the URI path. On the default URL it is "/" + stage + path, or the bare path under `Exclude`. On a custom domain it is the path, or the path after the base path under `Exclude`. |
| Handler.PathPrefix | src/handler.rs:115-118 | Under `Exclude` the prefix is the API path and otherwise the full path, with the same panics. When it is Ok, it ends with the API path. |
| Handler.RequestUri | src/handler.rs:114-134 | It is Ok exactly when the prefix is, and fails with the prefix's panic otherwise. Without query values it is the prefix. Otherwise it is the prefix, "?", and the pair texts joined with "&". |
| Handler.Respond | src/handler.rs:63-67 | A request that cannot be built returns that error. Otherwise the built request is dispatched. The result is Ok exactly when the response translates, with the same value. A translation error is passed on as a raised `RocketLambError`. |
| Handler.ClientOf | src/handler.rs:56-61 | Only a ready client is returned. Any other state panics with "client wasn't ready". |
| Handler.RocketRequest | src/handler.rs:69-81 | The steps are method, URI, client, headers and body, and the first failure wins: an unknown method gives its `InvalidRequest`, then a URI panic, then `ClientNotReady` for a client that is not ready, then the `InvalidRequest` of the first header that is not text. On success the method, URI, client, each header and the body bytes correspond to the request. |
| Handler.Initialise | src/handler.rs:37-48 | The routes are mounted again only under `RemountAndInclude` with a non-empty base path, and then under that base path. Start-up panics exactly when that behaviour's base path panics. |
| Handler.EnsureReady | src/handler.rs:33-54 | An uninitialised client becomes ready, or stays a placeholder after a panic. A ready client is kept. A placeholder panics. The call succeeds exactly when the client ends ready. |
| Handler.EnsureReadyAfterwards | src/handler.rs:33-54 | After a failed start, every later call panics with `InitialisationBegun`. After a successful one, every later call succeeds with the same client. |
| Handler.RocketHandler.constructor | src/handler.rs:12-15 | The handler holds the given client state and configuration. |
| Handler.RocketHandler.EnsureClientReady | src/handler.rs:33-54 | It puts `Placeholder` in first and moves the state as `EnsureReady` says. |
| Handler.RocketHandler.Client | src/handler.rs:56-61 | The client exactly when it is ready. |
| Handler.RocketHandler.GetPathAndQuery | src/handler.rs:114-134 | The prefix is the full path under `Include`/`RemountAndInclude` and the API path under `Exclude`, followed by the query suffix. |
| Handler.RocketHandler.CreateRocketRequest | src/handler.rs:69-81 | The imperative form of `RocketRequest`. |
| Handler.RocketHandler.Run | src/handler.rs:24-29 | It makes the client ready, then processes the request. A start-up panic ends the call. Otherwise the result is the translated answer to the built request. |
| Legacy.New | src/lib.rs:16-21 | The client is started from the given Rocket. |
| Legacy.GetPathAndQuery | src/lib.rs:75-92 | The URI path followed by the query suffix, and exactly the URI path when there are no values. |
| Legacy.RocketRequest | src/lib.rs:32-45 | It succeeds exactly when the method converts and every header value is text. It never panics. The URI is the URI path plus the query suffix. |
| Legacy.CreateRocketRequest | src/lib.rs:32-45 | The imperative form of `Legacy.RocketRequest`, with the same method map and header loop. |
| Legacy.ToLambdaResponse | src/lib.rs:54-73 | The status and headers are copied. No body gives `Empty`. Any body must be UTF-8 and becomes its text. Otherwise it gives `InvalidResponse("could not read response body as UTF-8 text")`. |
| Legacy.RunInternal | src/lib.rs:47-51 | A request error is returned. Otherwise the result is the text translation of the answer. |
| Legacy.ToLambdaResponseIsDefaultTranslation | src/lib.rs:54-73 | The text-only translation accepts the same responses as the newer one under the default config and gives the same Lambda responses. |
| Legacy.SameRequestBehindLoadBalancer | src/lib.rs:32-45 | Behind an ALB, both handlers build the same local request under any base-path behaviour. |
| Builder.RocketHandlerBuilder.constructor | src/builder.rs:33-38 | A new builder keeps the Rocket and has the default configuration, whose response type is `Text`. |
| Builder.RocketHandlerBuilder.GetDefaultResponseType | src/builder.rs:90-92 | The configured default. |
| Builder.RocketHandlerBuilder.GetResponseType | src/builder.rs:127-133 | The override under the lowercased content type, else the default. |
| Builder.RocketHandlerBuilder.SetDefaultResponseType | src/builder.rs:107-110 | Only the default changes. Every content type without an override then answers with it. |
| Builder.RocketHandlerBuilder.SetResponseType | src/builder.rs:150-155 | Only the override for the lowercased content type changes. Every spelling of it then answers with the new type. |
| Builder.RocketHandlerBuilder.IncludeApiGatewayBasePath | src/builder.rs:174-177 | Only the base-path behaviour changes, to the one the setting selects. |
| Builder.RocketHandlerBuilder.IntoHandler | src/builder.rs:53-58 | A new handler with the configuration unchanged and the client not yet started. |
| Builder.BehaviourFor | src/builder.rs:174-177 | `true` selects `RemountAndInclude` and `false` selects `Exclude`. |
| Builder.ResponseTypeExample | src/builder.rs:121-125 | With "TEXT/PLAIN" registered as `Binary`, "text/plain" is `Binary` and "application/json" is still `Text`. |
| Builder.DefaultResponseTypeExample | src/builder.rs:101-105 | With a `Binary` default, an unregistered type is `Binary`. |
| Builder.RegisteredTypeIgnoresParameters | tests/test.rs:69-84 | A type registered in any spelling applies whatever the parameters, so "text/plain; charset=utf-8" is `Binary` after `response_type("TEXT/PLAIN", Binary)`. |

## Left out

- `launch` and the `lambda!` loop: an endless event loop that reads environment variables.
- `Handler`/`HandlerError` and `failure` conversions in `run`: these only wrap errors. `Failure` keeps the error or panic they wrap.
- Rocket: `Client::untracked` and its launch error (the `unwrap` in `ensure_client_ready` and the `?` in lib.rs's `new`). Also `rocket.mount`/`routes()`, which is recorded only as "mounted again under this base path", plus dispatching, and the application's routes.
- `Uri::percent_encode` is a parameter, so nothing is proved about what it outputs beyond what a lemma assumes of it.
- Header names in the response are copied as Rocket spells them. The http response builder lowercases header names; the model keeps the spelling.
- The response builder's own header validation, `builder.body(...)`, whose errors become `InvalidResponse`. The model assumes every Rocket header is accepted.
- `into_bytes().unwrap_or_default()` for binary bodies: a body that cannot be read is not modelled, and the bytes are passed through.
- Parsing the Lambda event from JSON, and the test fixtures, which are not part of this model.
- The ignored test `custom_domain_with_base_path` (tests/path_tests.rs:66-77): the code does not give the result it expects.
- examples/hello_api.rs: a launch example only.
- Strings.ToLower: Rust's `to_lowercase` is Unicode-aware, while the model lowercases ASCII letters only.
- RequestExt.ParamName, RequestExt.PopulateSegment: Rust slices strings by byte index, while the model slices by character. The two agree when the segment's last character is ASCII. When it is not, Rust panics on a slice that is not on a character boundary, while the model looks up a name: "{é" gives a lookup of "" in the model, where Rust panics.
- The query-string map's iteration order is a parameter: an order (the sequence of entries) is given to the model, not computed.
