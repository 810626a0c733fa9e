/**
 * The global exception handler: maps an exception escaping a controller to
 * an HTTP status and a one-entry JSON body `{"message": ...}`.
 */
module ExceptionHandling {
  import opened JavaStrings
  import opened Model

  const BAD_REQUEST := 400
  const NOT_FOUND := 404
  const CONFLICT := 409
  const INTERNAL_SERVER_ERROR := 500

  /** Status and body of the error response. */
  datatype ResponseEntity = ResponseEntity(status: int, body: map<string, string>)

  /** The body every handler builds: the exception's own message under "message". */
  function ErrorBody(message: string): (body: map<string, string>)
    ensures body.Keys == {"message"} && body["message"] == message
  {
    map["message" := message]
  }

  /** `handleIllegalArgument`: always a bad request. */
  function HandleIllegalArgument(message: string): (r: ResponseEntity)
    ensures r.status == BAD_REQUEST
    ensures r.body == ErrorBody(message)
  {
    ResponseEntity(BAD_REQUEST, ErrorBody(message))
  }

  /**
   * `handleRuntime`: the lower-cased message decides the status, "not found"
   * before "already exists"; the body keeps the message as it was.
   */
  function HandleRuntime(message: string): (r: ResponseEntity)
    ensures r.body == ErrorBody(message)
    ensures r.status == NOT_FOUND || r.status == CONFLICT || r.status == INTERNAL_SERVER_ERROR
    ensures r.status == NOT_FOUND <==> Contains(ToLowerCase(message), "not found")
    ensures r.status == CONFLICT <==>
      !Contains(ToLowerCase(message), "not found") && Contains(ToLowerCase(message), "already exists")
  {
    var error := ErrorBody(message);
    var lowered := ToLowerCase(message);
    if Contains(lowered, "not found") then ResponseEntity(NOT_FOUND, error)
    else if Contains(lowered, "already exists") then ResponseEntity(CONFLICT, error)
    else ResponseEntity(INTERNAL_SERVER_ERROR, error)
  }

  /**
   * Spring's choice of handler: the most specific one, so an
   * `IllegalArgumentException` never reaches `handleRuntime`.
   */
  function HandleException(ex: Exception): (r: ResponseEntity)
    ensures r.body == ErrorBody(ex.message)
    ensures ex.IllegalArgumentException? ==> r.status == BAD_REQUEST
    ensures ex.RuntimeException? ==> r == HandleRuntime(ex.message)
  {
    match ex
    case IllegalArgumentException(m) => HandleIllegalArgument(m)
    case RuntimeException(m) => HandleRuntime(m)
  }

  /** The status depends only on the lower-cased message. */
  lemma StatusIgnoresCase(m1: string, m2: string)
    requires ToLowerCase(m1) == ToLowerCase(m2)
    ensures HandleRuntime(m1).status == HandleRuntime(m2).status
  {
  }

  /** "not found" written in any case, anywhere in the message, gives 404. */
  lemma NotFoundInAnyCase(message: string, pre: string, phrase: string, post: string)
    requires message == pre + phrase + post
    requires ToLowerCase(phrase) == "not found"
    ensures HandleRuntime(message).status == NOT_FOUND
  {
    ContainsIgnoringCase(message, pre, phrase, post);
  }

  /**
   * "already exists" written in any case gives 409, provided the message
   * does not also mention "not found".
   */
  lemma AlreadyExistsInAnyCase(message: string, pre: string, phrase: string, post: string)
    requires message == pre + phrase + post
    requires ToLowerCase(phrase) == "already exists"
    requires !Contains(ToLowerCase(message), "not found")
    ensures HandleRuntime(message).status == CONFLICT
  {
    ContainsIgnoringCase(message, pre, phrase, post);
  }

  /** "not found" wins over "already exists" when a message holds both. */
  lemma NotFoundTakesPrecedence(message: string)
    requires Contains(ToLowerCase(message), "not found")
    requires Contains(ToLowerCase(message), "already exists")
    ensures HandleRuntime(message).status == NOT_FOUND
  {
  }
}
