/** The two last-resort middlewares of backend/src/middleware/errorHandler.ts:
    the handler for errors thrown by a route, and the handler for requests
    no route matched. Both only compute the status code and the JSON body of
    the reply; the console log is left out. */
module ErrorHandler {
  import opened Js

  /** An error object reaching the handler. Each property holds whatever the
      thrower put there (`Undefined` when it set none): an `Error` carries a
      message and a stack, and HTTP libraries add `status` or `statusCode`. */
  datatype HttpError = HttpError(status: JsValue, statusCode: JsValue, message: JsValue, stack: JsValue)

  /** The JSON object sent back: `error` always, and the `stack` property
      only when it was spread in. */
  datatype ErrorBody = ErrorBody(error: JsValue, stack: Option<JsValue>)

  /** The reply: the value passed to `res.status` and the body passed to `res.json`. */
  datatype Reply = Reply(status: JsValue, body: ErrorBody)

  const DefaultStatus: int := 500
  const DefaultMessage := "Internal Server Error"
  const Development := "development"
  const RouteNotFound := "Route not found"

  /** `err.status || err.statusCode || 500`: the first truthy one of the
      two properties, and 500 when neither is. */
  function PickStatus(err: HttpError): (r: JsValue)
    ensures Truthy(r)
    ensures Truthy(err.status) ==> r == err.status
    ensures !Truthy(err.status) && Truthy(err.statusCode) ==> r == err.statusCode
    ensures !Truthy(err.status) && !Truthy(err.statusCode) ==> r == Num(DefaultStatus)
  {
    Or(Or(err.status, err.statusCode), Num(DefaultStatus))
  }

  /** `err.message || 'Internal Server Error'`: the message unless it is
      falsy (absent or the empty string). */
  function PickMessage(err: HttpError): (r: JsValue)
    ensures Truthy(r)
    ensures Truthy(err.message) ==> r == err.message
    ensures !Truthy(err.message) ==> r == Str(DefaultMessage)
  {
    Or(err.message, Str(DefaultMessage))
  }

  /** The error handler. `nodeEnv` is the `NODE_ENV` environment variable,
      `None` when it is unset. The body carries the stack exactly when the
      server runs in development, and then it is the error's own stack. */
  function HandleError(err: HttpError, nodeEnv: Option<string>): (r: Reply)
    ensures r.status == PickStatus(err) && r.body.error == PickMessage(err)
    ensures r.body.stack.Some? <==> nodeEnv == Some(Development)
    ensures r.body.stack.Some? ==> r.body.stack.value == err.stack
  {
    var inDevelopment := nodeEnv == Some(Development);
    Reply(PickStatus(err), ErrorBody(PickMessage(err), if inDevelopment then Some(err.stack) else None))
  }

  /** The handler for unmatched routes; the request plays no part in the reply. */
  function NotFoundHandler<Request>(req: Request): (r: Reply)
    ensures r.status == Num(404) && r.body.error == Str(RouteNotFound) && r.body.stack == None
  {
    Reply(Num(404), ErrorBody(Str(RouteNotFound), None))
  }

  /** A status of 0 counts as no status: the handler falls through to
      `statusCode`, exactly as when `status` is absent. */
  lemma ZeroStatusIsAbsent(err: HttpError, nodeEnv: Option<string>)
    ensures HandleError(err.(status := Num(0)), nodeEnv) == HandleError(err.(status := Undefined), nodeEnv)
    ensures HandleError(err.(status := Num(0), statusCode := Num(0)), nodeEnv).status == Num(DefaultStatus)
  {
  }

  /** An empty message counts as no message. */
  lemma EmptyMessageIsAbsent(err: HttpError, nodeEnv: Option<string>)
    ensures HandleError(err.(message := Str("")), nodeEnv).body.error == Str(DefaultMessage)
  {
  }

  /** Outside development the reply depends on the error's status and
      message only: two errors that differ in their stack get the same reply. */
  lemma StackNeverLeaksOutsideDevelopment(e1: HttpError, e2: HttpError, nodeEnv: Option<string>)
    requires nodeEnv != Some(Development)
    requires e1.status == e2.status && e1.statusCode == e2.statusCode && e1.message == e2.message
    ensures HandleError(e1, nodeEnv) == HandleError(e2, nodeEnv)
  {
  }

  /** The reply to an unmatched route is the one the error handler gives,
      outside development, for an error with status 404 and the message
      "Route not found". */
  lemma NotFoundAgreesWithErrorHandler<Request>(req: Request, err: HttpError, nodeEnv: Option<string>)
    requires err.status == Num(404) && err.message == Str(RouteNotFound)
    requires nodeEnv != Some(Development)
    ensures NotFoundHandler(req) == HandleError(err, nodeEnv)
  {
  }
}
