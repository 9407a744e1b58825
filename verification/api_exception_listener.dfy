/**
 * `ApiExceptionListener`: turns an exception raised while serving an
 * `/api` path into a JSON error response. Status codes follow section 15
 * of RFC 9110.
 */
module ExceptionListener {

  import opened Wrappers
  import opened ValidationErrors

  const HTTP_BAD_REQUEST := 400
  const HTTP_NOT_FOUND := 404
  const HTTP_METHOD_NOT_ALLOWED := 405
  const HTTP_INTERNAL_SERVER_ERROR := 500

  /**
   * A status code a response can carry: the classes 1xx to 5xx of section
   * 15 of RFC 9110 (Symfony's `Response` refuses any other code).
   */
  type StatusCode = c: int | 100 <= c <= 599 witness 500

  /**
   * What the listener can observe of a throwable: its class name and
   * message, whether it is a `ValidationException` (and which), whether it
   * is an `InvalidArgumentException`, and the status code when it is an
   * HTTP exception. One throwable may be of several of these kinds.
   */
  datatype Throwable = Throwable(
    className: string,
    message: string,
    validation: Option<ValidationException>,
    invalidArgument: bool,
    httpStatus: Option<StatusCode>)

  /** The `debug` member of a development-mode 500 body (file, line and trace are not modelled). */
  datatype Debug = Debug(exception: string, message: string)

  /** A JSON error body: `status`, `message`, and the optional `errors` and `debug` members. */
  datatype Body = Body(status: string, message: string, errors: Option<map<string, string>>, debug: Option<Debug>)

  datatype JsonResponse = JsonResponse(statusCode: StatusCode, body: Body)

  /** PHP's `?:` treats the empty string and "0" as false. */
  predicate Falsy(s: string) {
    s == "" || s == "0"
  }

  /** `getDefaultMessage`: the message used for an HTTP exception without one of its own. */
  function DefaultMessage(statusCode: int): (m: string)
    ensures m != "" && !Falsy(m)
    ensures m == "Resource not found" <==> statusCode == HTTP_NOT_FOUND
    ensures m == "Method not allowed" <==> statusCode == HTTP_METHOD_NOT_ALLOWED
    ensures statusCode != HTTP_NOT_FOUND && statusCode != HTTP_METHOD_NOT_ALLOWED ==> m == "An error occurred"
  {
    match statusCode
    case 404 => "Resource not found"
    case 405 => "Method not allowed"
    case _ => "An error occurred"
  }

  /** `createInternalServerErrorResponse`: a 500 that shows the exception only in the dev environment. */
  function InternalServerError(exception: Throwable, environment: string): (r: JsonResponse)
    ensures r.statusCode == HTTP_INTERNAL_SERVER_ERROR && r.body.status == "error"
    ensures r.body.message == "Internal server error" && r.body.errors.None?
    ensures r.body.debug.Some? <==> environment == "dev"
    ensures r.body.debug.Some? ==> r.body.debug.value == Debug(exception.className, exception.message)
  {
    var debug := if environment == "dev" then Some(Debug(exception.className, exception.message)) else None;
    JsonResponse(HTTP_INTERNAL_SERVER_ERROR, Body("error", "Internal server error", None, debug))
  }

  /**
   * `createJsonResponse`: the first matching kind decides, in the order
   * validation, invalid argument, HTTP exception, anything else.
   */
  function CreateJsonResponse(exception: Throwable, environment: string): (r: JsonResponse)
    ensures r.body.status == "error"
    ensures r.body.errors.Some? <==> exception.validation.Some?
    ensures r.body.debug.Some? ==> r.statusCode == HTTP_INTERNAL_SERVER_ERROR && environment == "dev"
    ensures r.body.message != "" || exception.invalidArgument
  {
    if exception.validation.Some? then
      JsonResponse(HTTP_BAD_REQUEST, Body("error", "Validation failed", Some(exception.validation.value.errors), None))
    else if exception.invalidArgument then
      JsonResponse(HTTP_BAD_REQUEST, Body("error", exception.message, None, None))
    else if exception.httpStatus.Some? then
      var statusCode := exception.httpStatus.value;
      var message := if Falsy(exception.message) then DefaultMessage(statusCode) else exception.message;
      JsonResponse(statusCode, Body("error", message, None, None))
    else
      InternalServerError(exception, environment)
  }

  /** `str_starts_with`. */
  predicate StartsWith(s: string, prefix: string) {
    |prefix| <= |s| && s[..|prefix|] == prefix
  }

  /** The response the listener sets for an exception on a path, if any. */
  function Handle(pathInfo: string, exception: Throwable, environment: string): (r: Option<JsonResponse>)
    ensures r.Some? <==> StartsWith(pathInfo, "/api")
    ensures r.Some? ==> r.value.body.status == "error"
  {
    if StartsWith(pathInfo, "/api") then Some(CreateJsonResponse(exception, environment)) else None
  }

  /** A `ValidationException` always answers 400 with its errors, whatever else the throwable is. */
  lemma ValidationAnswersBadRequest(exception: Throwable, environment: string)
    requires exception.validation.Some?
    ensures CreateJsonResponse(exception, environment)
      == JsonResponse(HTTP_BAD_REQUEST, Body("error", "Validation failed", Some(exception.validation.value.errors), None))
  {
  }

  /** An `InvalidArgumentException` answers 400 with its own message, even when it is also an HTTP exception. */
  lemma InvalidArgumentAnswersBadRequest(exception: Throwable, environment: string)
    requires exception.validation.None? && exception.invalidArgument
    ensures CreateJsonResponse(exception, environment).statusCode == HTTP_BAD_REQUEST
    ensures CreateJsonResponse(exception, environment).body.message == exception.message
  {
  }

  /** An HTTP exception keeps its status; its message is used unless falsy, then the default for the status. */
  lemma HttpExceptionKeepsStatus(exception: Throwable, environment: string)
    requires exception.validation.None? && !exception.invalidArgument && exception.httpStatus.Some?
    ensures CreateJsonResponse(exception, environment).statusCode == exception.httpStatus.value
    ensures !Falsy(exception.message) ==> CreateJsonResponse(exception, environment).body.message == exception.message
    ensures Falsy(exception.message) ==>
      CreateJsonResponse(exception, environment).body.message == DefaultMessage(exception.httpStatus.value)
    ensures CreateJsonResponse(exception, environment).body.debug.None?
  {
  }

  /** Any other throwable answers 500; the exception's class and message are exposed only in dev. */
  lemma OtherThrowablesAnswerInternalError(exception: Throwable, environment: string)
    requires exception.validation.None? && !exception.invalidArgument && exception.httpStatus.None?
    ensures CreateJsonResponse(exception, environment) == InternalServerError(exception, environment)
    ensures CreateJsonResponse(exception, environment).body.debug.Some? <==> environment == "dev"
  {
  }

  /**
   * A generic exception on an API path answers 500 (without details outside
   * dev), other paths are left alone, routing exceptions keep their own
   * message, and an empty or "0" message falls back to the standard wording.
   */
  lemma ListenerExamples()
    ensures Handle("/non-api/route", Throwable("Exception", "Test exception", None, false, None), "prod").None?
    ensures Handle("/api/fizzbuzz", Throwable("Exception", "Test exception", None, false, None), "prod")
      == Some(JsonResponse(500, Body("error", "Internal server error", None, None)))
    ensures Handle("/api/fizzbuzz", Throwable("InvalidArgumentException", "Invalid input provided", None, true, None), "prod")
      == Some(JsonResponse(400, Body("error", "Invalid input provided", None, None)))
    ensures Handle("/api/nonexistent", Throwable("NotFoundHttpException", "Route not found", None, false, Some(404)), "prod")
      == Some(JsonResponse(404, Body("error", "Route not found", None, None)))
    ensures Handle("/api/fizzbuzz", Throwable("MethodNotAllowedHttpException", "", None, false, Some(405)), "prod")
      == Some(JsonResponse(405, Body("error", "Method not allowed", None, None)))
    ensures Handle("/api/missing", Throwable("NotFoundHttpException", "0", None, false, Some(404)), "prod")
      == Some(JsonResponse(404, Body("error", "Resource not found", None, None)))
    ensures Handle("/apidoc", Throwable("NotFoundHttpException", "", None, false, Some(418)), "prod")
      == Some(JsonResponse(418, Body("error", "An error occurred", None, None)))
  {
    assert "/non-api/route"[..4] != "/api" by { assert "/non-api/route"[1] == 'n'; }
    assert "/api/fizzbuzz"[..4] == "/api";
    assert "/api/nonexistent"[..4] == "/api";
    assert "/api/missing"[..4] == "/api";
    assert "/apidoc"[..4] == "/api";
  }

  /** The kernel exception event: the request path, the throwable, and the response once set. */
  class ExceptionEvent {
    const pathInfo: string
    const throwable: Throwable
    var response: Option<JsonResponse>

    constructor (pathInfo: string, throwable: Throwable)
      ensures this.pathInfo == pathInfo && this.throwable == throwable && response.None?
    {
      this.pathInfo := pathInfo;
      this.throwable := throwable;
      response := None;
    }
  }

  class ApiExceptionListener {
    const environment: string

    constructor (environment: string)
      ensures this.environment == environment
    {
      this.environment := environment;
    }

    /**
     * `onKernelException`: on an `/api` path, sets the JSON response for the
     * event's throwable; elsewhere leaves the event alone. `logged` is whether
     * an error record is written, which happens for every handled throwable
     * except a `ValidationException`.
     */
    method OnKernelException(event: ExceptionEvent) returns (logged: bool)
      modifies event
      ensures event.response == if StartsWith(event.pathInfo, "/api") then Handle(event.pathInfo, event.throwable, environment)
        else old(event.response)
      ensures logged <==> StartsWith(event.pathInfo, "/api") && event.throwable.validation.None?
    {
      if !StartsWith(event.pathInfo, "/api") {
        return false;
      }
      logged := event.throwable.validation.None?;
      event.response := Some(CreateJsonResponse(event.throwable, environment));
    }
  }
}
