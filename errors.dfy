/**
 * The crate's error type `RocketLambError`, its display text, and the
 * panics that end an invocation without an error value.
 */
module Errors {
  import opened Strings

  /** `RocketLambError`. The `invalid_request!` and `invalid_response!` macros are its two constructors applied to a formatted message. */
  datatype RocketLambError = InvalidRequest(message: string) | InvalidResponse(message: string)

  const RequestPrefix: string := "could not transform request: "
  const ResponsePrefix: string := "could not transform response: "

  /** The `Display` text of an error: a fixed prefix per variant, then the message. */
  function Display(e: RocketLambError): (s: string)
    ensures e.InvalidRequest? ==> StartsWith(s, RequestPrefix) && s[|RequestPrefix|..] == e.message
    ensures e.InvalidResponse? ==> StartsWith(s, ResponsePrefix) && s[|ResponsePrefix|..] == e.message
  {
    match e
    case InvalidRequest(m) => RequestPrefix + m
    case InvalidResponse(m) => ResponsePrefix + m
  }

  /** Two errors with the same display text are the same error: the text names the variant and carries the whole message. */
  lemma DisplayInjective(e1: RocketLambError, e2: RocketLambError)
    requires Display(e1) == Display(e2)
    ensures e1 == e2
  {
    var s := Display(e1);
    assert RequestPrefix[22] == 'q' && ResponsePrefix[22] == 's';
    assert s[22] == (if e1.InvalidRequest? then 'q' else 's');
    assert s[22] == (if e2.InvalidRequest? then 'q' else 's');
  }

  /** The reason a `panic!`, `expect` or `unwrap` of the core aborts the invocation. */
  datatype Panic =
    | PathParameterMissing(name: string)            // `expect("Path parameters should match resource path")`
    | SegmentSliceOutOfRange(segment: string)       // `segment[1..segment.len() - end]` with the end before the start
    | SegmentNotFound(segment: string, path: string) // "Could not find segment '{}' in path '{}'."
    | InitialisationBegun                           // "LazyClient has previously begun initialiation."
    | ClientNotReady                                // "Rocket client wasn't ready. ..."

  /** How one invocation can fail: an error that `run` returns, or a panic. */
  datatype Failure = Raised(error: RocketLambError) | Panicked(panic: Panic)
}
