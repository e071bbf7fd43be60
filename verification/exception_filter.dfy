/**
 * The global exception filter (shared/filters/http-exception.filter.ts): every
 * exception a request raises becomes one JSON body with `success: false`, the
 * status code and a message, plus the list of validation messages when there is
 * one. The timestamp and the request path of the body are left out.
 */
module ExceptionFilter {
  import opened Wrappers
  import Errors

  /** The `message` property of an object response. */
  datatype MessageField =
    | Messages(items: seq<string>)   // an array, as the validation pipe produces
    | Text(s: string)
    | Absent                         // undefined

  /** What an HTTP exception's `getResponse()` yields. */
  datatype HttpResponse = StringResponse(s: string) | ObjectResponse(message: MessageField)

  /** The thrown value. */
  datatype Thrown =
    | HttpException(status: int, response: HttpResponse)
    | PlainError(message: string)
    | NonError

  /** The response body. */
  datatype Body = Body(success: bool, statusCode: int, message: string, errors: Option<seq<string>>)

  const InternalServerError := 500

  /** `catch`: classify the exception, then build the body. */
  function Catch(ex: Thrown): (b: Body)
    ensures !b.success
    ensures b.statusCode == (if ex.HttpException? then ex.status else InternalServerError)
    ensures b.errors.Some? <==>
      ex.HttpException? && ex.response.ObjectResponse? && ex.response.message.Messages? && |ex.response.message.items| > 0
    ensures b.errors.Some? ==> b.errors == Some(ex.response.message.items) && b.message == "Validation failed"
    ensures b.message == "" <==> ex.HttpException? && ex.response == StringResponse("")
  {
    var (status, message, validation) :=
      match ex
      case HttpException(code, StringResponse(s)) => (code, s, [])
      case HttpException(code, ObjectResponse(Messages(items))) => (code, "Validation failed", items)
      case HttpException(code, ObjectResponse(Text(s))) => (code, OrDefault(s, "HTTP exception occurred"), [])
      case HttpException(code, ObjectResponse(Absent)) => (code, "HTTP exception occurred", [])
      case PlainError(m) => (InternalServerError, OrDefault(m, "Internal server error"), [])
      case NonError => (InternalServerError, "Unknown server error", []);
    Body(false, status, message, if |validation| > 0 then Some(validation) else None)
  }

  /** `s || fallback` on a string: the empty string is falsy. */
  function OrDefault(s: string, fallback: string): (r: string)
    ensures r == s || r == fallback
    ensures r == "" <==> s == "" && fallback == ""
  {
    if s == "" then fallback else s
  }

  /**
   * How a service error reaches the filter: the framework's HTTP exceptions
   * carry an object response whose `message` is the text they were built with;
   * a plain `Error` is not an HTTP exception.
   */
  function Raise(e: Errors.Error): Thrown {
    if e.IsHttp() then HttpException(Errors.Status(e), ObjectResponse(Text(e.message)))
    else PlainError(e.message)
  }

  /**
   * Every error a service model returns reaches the client with the status of
   * its class and its own message (or the class default when empty), never with
   * a list of validation messages.
   */
  lemma ServiceErrorBody(e: Errors.Error)
    ensures Catch(Raise(e)).statusCode == Errors.Status(e)
    ensures e.message != "" ==> Catch(Raise(e)).message == e.message
    ensures e.message == "" ==>
      Catch(Raise(e)).message == (if e.Internal? then "Internal server error" else "HTTP exception occurred")
    ensures Catch(Raise(e)).errors.None?
  {
  }

  /** The validation pipe's rejection: a 400 whose response lists the failed constraints. */
  function ValidationRejection(messages: seq<string>): Thrown {
    HttpException(400, ObjectResponse(Messages(messages)))
  }

  /**
   * A validation failure always reads "Validation failed" with status 400; its
   * messages are passed on exactly when there is at least one.
   */
  lemma ValidationBody(messages: seq<string>)
    ensures Catch(ValidationRejection(messages)) ==
      Body(false, 400, "Validation failed", if |messages| > 0 then Some(messages) else None)
  {
  }

  /** Anything that is not an HTTP exception is a 500, whatever its message. */
  lemma NonHttpIsInternal(ex: Thrown)
    requires !ex.HttpException?
    ensures Catch(ex).statusCode == 500 && Catch(ex).message != ""
  {
  }
}
