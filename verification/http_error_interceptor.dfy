/**
 * The frontend's HTTP error interceptor: turns a failed request into the one
 * line of text shown to the user, and re-throws it as an `Error`.
 */
module HttpErrorInterceptor {
  import opened Wrappers
  import opened JavaStrings

  /** The text the interceptor starts from before any branch assigns one. */
  const UNKNOWN_ERROR := "An unknown error occurred!"
  const BAD_REQUEST_TEXT := "Bad Request. Please check your input."
  const UNAUTHORIZED_TEXT := "Unauthorized. Please login again."
  const FORBIDDEN_TEXT := "Forbidden. You do not have permission to access this resource."
  const NOT_FOUND_TEXT := "Resource not found."
  const CONFLICT_TEXT := "Conflict. This resource might already exist."
  const SERVER_ERROR_TEXT := "Internal Server Error. Please try again later."

  /** Statuses whose text is fixed, whatever the server says. */
  const FIXED_TEXTS: map<int, string> :=
    map[401 := UNAUTHORIZED_TEXT, 403 := FORBIDDEN_TEXT, 404 := NOT_FOUND_TEXT]

  /** Statuses whose text is the server's message, or this fallback when it sent none. */
  const FALLBACK_TEXTS: map<int, string> :=
    map[400 := BAD_REQUEST_TEXT, 409 := CONFLICT_TEXT, 500 := SERVER_ERROR_TEXT]

  /**
   * `HttpErrorResponse.error`: a client-side `ErrorEvent`, or the body the
   * server sent, of which only the `message` property is read (`None` when
   * the body is null or has no such property).
   */
  datatype ErrorPayload =
    | ErrorEvent(eventMessage: string)
    | ServerBody(bodyMessage: Option<string>)

  /** The failed response as Angular reports it. */
  datatype HttpErrorResponse = HttpErrorResponse(status: int, message: string, error: ErrorPayload)

  /**
   * JavaScript truthiness of a string that may be undefined: the only falsy
   * ones are `undefined` and the empty string.
   */
  predicate Truthy(m: Option<string>): (r: bool)
    ensures r ==> m.Some? && |m.value| > 0
    ensures !r ==> m == None || m == Some("")
  {
    m.Some? && m.value != ""
  }

  /** JavaScript `m || fallback`. */
  function OrElse(m: Option<string>, fallback: string): (r: string)
    ensures Truthy(m) ==> r == m.value
    ensures !Truthy(m) ==> r == fallback
  {
    if Truthy(m) then m.value else fallback
  }

  const CODE_PREFIX := "Error Code: "

  /**
   * Text for a status the switch does not name, without a server message:
   * it opens with the status code, which can be read back, and ends with
   * the transport's message.
   */
  function DefaultText(status: int, message: string): (text: string)
    ensures var n := |IntToString(status)|;
      && |CODE_PREFIX| + n <= |text| && text[..|CODE_PREFIX|] == CODE_PREFIX
      && IsIntText(text[|CODE_PREFIX|..|CODE_PREFIX| + n])
      && ParseInt(text[|CODE_PREFIX|..|CODE_PREFIX| + n]) == status
    ensures |message| <= |text| && text[|text| - |message|..] == message
  {
    IntToStringRoundTrip(status);
    var code := IntToString(status);
    var text := CODE_PREFIX + code + "\nMessage: " + message;
    assert text[|CODE_PREFIX|..|CODE_PREFIX| + |code|] == code;
    assert text[|text| - |message|..] == message;
    text
  }

  /**
   * The `errorMessage` the interceptor settles on. Client-side errors are
   * prefixed with "Error: "; for 401, 403 and 404 the text is fixed; for
   * every other status a truthy server message wins, else the status's
   * fallback or the generic code-and-message text.
   */
  function ErrorMessage(e: HttpErrorResponse): (text: string)
    ensures e.error.ErrorEvent? ==> text == "Error: " + e.error.eventMessage
    ensures e.error.ServerBody? && e.status in FIXED_TEXTS ==> text == FIXED_TEXTS[e.status]
    ensures e.error.ServerBody? && e.status !in FIXED_TEXTS && Truthy(e.error.bodyMessage) ==>
      text == e.error.bodyMessage.value
    ensures e.error.ServerBody? && e.status in FALLBACK_TEXTS && !Truthy(e.error.bodyMessage) ==>
      text == FALLBACK_TEXTS[e.status]
    ensures e.error.ServerBody? && e.status !in FIXED_TEXTS && e.status !in FALLBACK_TEXTS
            && !Truthy(e.error.bodyMessage) ==>
      text == DefaultText(e.status, e.message)
  {
    match e.error
    case ErrorEvent(m) => "Error: " + m
    case ServerBody(m) =>
      if e.status == 400 then OrElse(m, BAD_REQUEST_TEXT)
      else if e.status == 401 then UNAUTHORIZED_TEXT
      else if e.status == 403 then FORBIDDEN_TEXT
      else if e.status == 404 then NOT_FOUND_TEXT
      else if e.status == 409 then OrElse(m, CONFLICT_TEXT)
      else if e.status == 500 then OrElse(m, SERVER_ERROR_TEXT)
      else OrElse(m, DefaultText(e.status, e.message))
  }

  /** The `Error` the interceptor re-throws. */
  datatype Error = Error(message: string)

  /** What the wrapped request produces: a value, or a failed response. */
  datatype HttpOutcome<T> = Emitted(value: T) | Failed(failure: HttpErrorResponse)

  /** What the caller of the intercepted request receives. */
  datatype Delivery<T> = Delivered(value: T) | Thrown(error: Error)

  /**
   * The interceptor around one request: values pass through untouched and
   * every failure is re-thrown carrying the chosen text; nothing is swallowed.
   */
  function Intercept<T>(outcome: HttpOutcome<T>): (d: Delivery<T>)
    ensures d.Delivered? <==> outcome.Emitted?
    ensures outcome.Emitted? ==> d.value == outcome.value
    ensures outcome.Failed? ==> d.error.message == ErrorMessage(outcome.failure)
  {
    match outcome
    case Emitted(v) => Delivered(v)
    case Failed(e) => Thrown(Error(ErrorMessage(e)))
  }

  /** For 401, 403 and 404 the server's message makes no difference. */
  lemma FixedTextIgnoresServer(e: HttpErrorResponse, other: Option<string>)
    requires e.error.ServerBody? && e.status in {401, 403, 404}
    ensures ErrorMessage(e) == ErrorMessage(e.(error := ServerBody(other)))
    ensures ErrorMessage(e) != UNKNOWN_ERROR
  {
  }

  /**
   * Every branch assigns a text of its own: the initial "An unknown error
   * occurred!" comes out only when the server itself sent that message.
   */
  lemma UnknownOnlyFromServer(e: HttpErrorResponse)
    ensures ErrorMessage(e) == UNKNOWN_ERROR ==>
      e.error.ServerBody? && e.error.bodyMessage == Some(UNKNOWN_ERROR) && e.status !in FIXED_TEXTS
  {
    var text := ErrorMessage(e);
    if e.error.ErrorEvent? {
      assert text[0] == 'E';
    } else if e.status == 401 {
      assert text == UNAUTHORIZED_TEXT && UNAUTHORIZED_TEXT != UNKNOWN_ERROR;
    } else if e.status == 403 {
      assert text == FORBIDDEN_TEXT && FORBIDDEN_TEXT != UNKNOWN_ERROR;
    } else if e.status == 404 {
      assert text == NOT_FOUND_TEXT && NOT_FOUND_TEXT != UNKNOWN_ERROR;
    } else if Truthy(e.error.bodyMessage) {
    } else if e.status == 400 {
      assert text == BAD_REQUEST_TEXT && BAD_REQUEST_TEXT != UNKNOWN_ERROR;
    } else if e.status == 409 {
      assert text == CONFLICT_TEXT && CONFLICT_TEXT != UNKNOWN_ERROR;
    } else if e.status == 500 {
      assert text == SERVER_ERROR_TEXT && SERVER_ERROR_TEXT != UNKNOWN_ERROR;
    } else {
      assert text[0] == 'E';
    }
  }

  /** A 409 whose server message says "already exists" shows those words to the user. */
  lemma ConflictKeepsServerWords(e: HttpErrorResponse, phrase: string)
    requires e.status == 409 && e.error.ServerBody? && e.error.bodyMessage.Some?
    requires phrase != "" && Contains(e.error.bodyMessage.value, phrase)
    ensures ErrorMessage(e) == e.error.bodyMessage.value
    ensures Contains(ErrorMessage(e), phrase)
  {
    ContainsImpliesOccurs(e.error.bodyMessage.value, phrase);
  }
}
