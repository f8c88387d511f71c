/**
 * exception/GlobalExceptionHandler.java: the five `@ExceptionHandler`s, with Spring's
 * choice of the most specific one, as a single map from the exception to the response.
 */
module ExceptionHandling {
  import opened Wrappers
  import opened Domain

  /** dto/ErrorResponseDto.java. */
  datatype ErrorResponseDto = ErrorResponseDto(timestamp: Time, status: int, error: string, message: Str, path: string)

  /** A `ResponseEntity`: the HTTP status and the body. */
  datatype ErrorResponse = ErrorResponse(httpStatus: int, body: ErrorResponseDto)

  const SEPARATOR: string := "; "

  /** `Collectors.joining("; ")`. */
  function Join(parts: seq<string>): (r: string)
    ensures parts == [] ==> r == ""
    ensures parts != [] ==> |parts[0]| <= |r| && r[..|parts[0]|] == parts[0]
  {
    if parts == [] then ""
    else if |parts| == 1 then parts[0]
    else parts[0] + SEPARATOR + Join(parts[1..])
  }

  /**
   * The handler Spring selects and the response it builds. `UsernameNotFoundException`
   * and `NullPointerException` have no handler of their own and reach the generic one.
   */
  function Handle(e: Failure, requestUri: string, now: Time): (r: ErrorResponse)
    ensures r.body.status == r.httpStatus && r.body.path == requestUri && r.body.timestamp == now
    ensures e.MethodArgumentNotValid? ==>
      r.httpStatus == 400 && r.body.error == "Validation Error" && r.body.message == Some(Join(e.fieldMessages))
    ensures e.IllegalArgument? ==> r.httpStatus == 400 && r.body.error == "Bad Request" && r.body.message == e.message
    ensures e.ResourceNotFound? ==> r.httpStatus == 404 && r.body.error == "Not Found" && r.body.message == e.message
    ensures e.BadCredentials? ==>
      r.httpStatus == 401 && r.body.error == "Authentication Failed" && r.body.message == Some(BAD_CREDENTIALS)
    ensures (e.UsernameNotFound? || e.NullPointer? || e.Unexpected?) ==>
      r.httpStatus == 500 && r.body.error == "Internal Server Error" && r.body.message == Some("Something went wrong")
  {
    match e
    case MethodArgumentNotValid(messages) =>
      ErrorResponse(400, ErrorResponseDto(now, 400, "Validation Error", Some(Join(messages)), requestUri))
    case IllegalArgument(m) =>
      ErrorResponse(400, ErrorResponseDto(now, 400, "Bad Request", m, requestUri))
    case ResourceNotFound(m) =>
      ErrorResponse(404, ErrorResponseDto(now, 404, "Not Found", m, requestUri))
    case BadCredentials(_) =>
      ErrorResponse(401, ErrorResponseDto(now, 401, "Authentication Failed", Some(BAD_CREDENTIALS), requestUri))
    case _ =>
      ErrorResponse(500, ErrorResponseDto(now, 500, "Internal Server Error", Some("Something went wrong"), requestUri))
  }

  /** The status is 400, 401, 404 or 500. */
  lemma StatusIsOneOfFour(e: Failure, requestUri: string, now: Time)
    ensures Handle(e, requestUri, now).httpStatus in {400, 401, 404, 500}
  {
  }

  /** The text of a credentials failure or an unexpected exception never reaches the client. */
  lemma MessagesNotCopied(m1: Str, m2: Str, requestUri: string, now: Time)
    ensures Handle(BadCredentials(m1), requestUri, now) == Handle(BadCredentials(m2), requestUri, now)
    ensures Handle(Unexpected(m1), requestUri, now) == Handle(Unexpected(m2), requestUri, now)
    ensures Handle(UsernameNotFound(m1), requestUri, now) == Handle(Unexpected(m2), requestUri, now)
  {
  }

  /** Joining two non-empty runs of messages puts one separator between them, in order. */
  lemma {:induction false} JoinAppend(a: seq<string>, b: seq<string>)
    requires a != [] && b != []
    ensures Join(a + b) == Join(a) + SEPARATOR + Join(b)
  {
    if |a| == 1 {
      assert (a + b)[1..] == b;
    } else {
      assert (a + b)[1..] == a[1..] + b;
      JoinAppend(a[1..], b);
    }
  }

  function SumLengths(parts: seq<string>): nat
  {
    if parts == [] then 0 else |parts[0]| + SumLengths(parts[1..])
  }

  /** The joined text is the messages plus one two-character separator between each pair. */
  lemma {:induction false} JoinLength(parts: seq<string>)
    requires parts != []
    ensures |Join(parts)| == SumLengths(parts) + 2 * (|parts| - 1)
  {
    if |parts| > 1 {
      JoinLength(parts[1..]);
    } else {
      assert parts[1..] == [];
    }
  }

  /** Where the `i`-th message starts in the joined text. */
  function Offset(parts: seq<string>, i: nat): nat
    requires i < |parts|
  {
    if i == 0 then 0 else |parts[0]| + |SEPARATOR| + Offset(parts[1..], i - 1)
  }

  /** Each message appears, unchanged and in order, at its offset in the joined text. */
  lemma {:induction false} JoinContainsEach(parts: seq<string>, i: nat)
    requires i < |parts|
    ensures Offset(parts, i) + |parts[i]| <= |Join(parts)|
    ensures Join(parts)[Offset(parts, i)..Offset(parts, i) + |parts[i]|] == parts[i]
  {
    var j := Join(parts);
    if i == 0 {
      assert j[0..|parts[0]|] == parts[0];
    } else {
      JoinContainsEach(parts[1..], i - 1);
      var rest := Join(parts[1..]);
      var lo := Offset(parts[1..], i - 1);
      var off := |parts[0]| + |SEPARATOR|;
      assert j == parts[0] + SEPARATOR + rest;
      assert j[off + lo..off + lo + |parts[i]|] == rest[lo..lo + |parts[i]|];
    }
  }
}
