/**
 * The central error handler: picks the response status and builds the
 * `{ error, stack }` body for an error passed to `next`.
 */
module ErrorHandling {
  import opened Wrappers

  /** A thrown error: the optional `statusCode` property, `message` and `stack`. */
  datatype Error = Error(statusCode: Option<int>, message: string, stack: Option<string>)

  /** The `stack` member of the body: `null`, left out (an undefined stack), or the trace. */
  datatype Stack = Null | Omitted | Trace(s: string)

  datatype ErrorReply = ErrorReply(status: int, error: string, stack: Stack)

  /** `err.statusCode` is truthy: present and not 0. */
  predicate HasStatusCode(err: Error)
  {
    err.statusCode.Some? && err.statusCode.value != 0
  }

  const DefaultMessage: string := "Internal Server Error"

  /**
   * `errorHandler(err, req, res, next)` where `res.statusCode` is
   * `resStatus` and `production` says whether `NODE_ENV` is "production".
   */
  function HandleError(err: Error, resStatus: int, production: bool): (r: ErrorReply)
    ensures HasStatusCode(err) ==> r.status == err.statusCode.value
    ensures !HasStatusCode(err) && resStatus == 200 ==> r.status == 500
    ensures !HasStatusCode(err) && resStatus != 200 ==> r.status == resStatus
    ensures err.message != "" ==> r.error == err.message
    ensures err.message == "" ==> r.error == DefaultMessage
    ensures r.stack == Null <==> production
    ensures !production ==> r.stack == (if err.stack.Some? then Trace(err.stack.value) else Omitted)
  {
    var status := if HasStatusCode(err) then err.statusCode.value
                  else if resStatus == 200 then 500 else resStatus;
    var stack := if production then Null
                 else if err.stack.Some? then Trace(err.stack.value) else Omitted;
    ErrorReply(status, if err.message != "" then err.message else DefaultMessage, stack)
  }

  /**
   * The reply never says 200 unless the error asked for it, its message is
   * never empty, and in production no trace leaves the server.
   */
  lemma HandleErrorSafe(err: Error, resStatus: int, production: bool)
    ensures HandleError(err, resStatus, production).status == 200 ==> err.statusCode == Some(200)
    ensures HandleError(err, resStatus, production).error != ""
    ensures production ==> !HandleError(err, resStatus, production).stack.Trace?
  {
  }

  /** A status a route set before throwing survives when the error carries none. */
  lemma PresetStatusSurvives(message: string, resStatus: int, production: bool)
    requires resStatus != 200
    ensures HandleError(Error(None, message, None), resStatus, production).status == resStatus
  {
  }
}
