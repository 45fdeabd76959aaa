/** The `async_handler` wrapper around every controller
    (discord/utils/asyncHandler.js): a handler either sends its own reply or
    throws, and a thrown error becomes `{success: false, message}` with the
    error's `status` property, or 500 when that property is missing or 0. */
module AsyncHandler {
  import opened Text
  import opened ErrorHandler
  import opened ApiResponses

  /** What a handler can throw. `ApiErr` is an `ApiError`, whose status lives
      in `statusCode`; it has no `status` property. `Fault` is any other
      error — a Mongoose validation error, a TypeError, a ReferenceError, a
      failed token check — with its `status` property if it has one. */
  datatype Thrown = ApiErr(error: ApiError) | Fault(status: Option<int>, message: string)

  /** `err.message` */
  function MessageOf(t: Thrown): string {
    match t
    case ApiErr(e) => e.message
    case Fault(_, m) => m
  }

  /** `err.status`: absent on an `ApiError`. */
  function StatusProperty(t: Thrown): Option<int> {
    match t
    case ApiErr(_) => None
    case Fault(s, _) => s
  }

  /** The body of a reply: a handler's own envelope, or the wrapper's
      `{success: false, message}`. */
  datatype Body<T> = Envelope(response: ApiResponse<T>) | Failure(message: string)

  datatype Reply<T> = Reply(status: int, body: Body<T>)

  /** How a handler run ends: it sent a reply itself, or it threw. */
  datatype Outcome<T> = Sent(reply: Reply<T>) | Raised(error: Thrown)

  /** The outcome of a handler's checks: go ahead, refuse with an HTTP
      status, or crash on a missing document (a TypeError, answered 500). */
  datatype Verdict = Allowed | Refused(status: int) | Crash

  /** The reply `res.status(...).json(...)` builds from the handler's envelope. */
  function Send<T>(status: int, data: T, message: string): (o: Outcome<T>)
    ensures o.Sent? && o.reply.status == status
    ensures o.reply.body.Envelope? && o.reply.body.response.data == data
    ensures o.reply.body.response.success <==> status < 400
  {
    Sent(Reply(status, Envelope(Respond(status, data, message))))
  }

  /** `throw new ApiError(status, message)` */
  function Throw<T>(status: int, message: string): (o: Outcome<T>)
    ensures o.Raised? && o.error.ApiErr? && o.error.error.statusCode == status
    ensures MessageOf(o.error) == message && RaisedWithText(o, status, message)
  {
    Raised(ApiErr(Raise(status, message)))
  }

  /** The handler threw an `ApiError` raised with `status`. */
  predicate RaisedWith<T>(o: Outcome<T>, status: int) {
    o.Raised? && o.error.ApiErr? && o.error.error.statusCode == status
  }

  /** The handler threw an `ApiError` raised with `status` and `message`:
      the message is what the client is answered with. */
  predicate RaisedWithText<T>(o: Outcome<T>, status: int, message: string) {
    RaisedWith(o, status) && o.error.error.message == message
  }

  /** The handler threw something other than an `ApiError` that carries no
      `status` (a validation error, a TypeError, a ReferenceError). */
  predicate Crashed<T>(o: Outcome<T>) {
    o.Raised? && o.error.Fault? && o.error.status.None?
  }

  /** What reaches the client. A handler that completes gets no second reply
      from the wrapper; a thrown error is caught (never rethrown) and answered
      with its `status` when that is truthy, else 500. */
  function Handle<T>(o: Outcome<T>): (r: Reply<T>)
    ensures o.Sent? ==> r == o.reply
    ensures o.Raised? ==> r.body == Failure(MessageOf(o.error))
    ensures o.Raised? && (StatusProperty(o.error).None? || StatusProperty(o.error) == Some(0)) ==> r.status == 500
    ensures o.Raised? && StatusProperty(o.error).Some? && StatusProperty(o.error).value != 0
            ==> r.status == StatusProperty(o.error).value
  {
    match o
    case Sent(reply) => reply
    case Raised(err) =>
      var s := StatusProperty(err);
      Reply(if s.Some? && s.value != 0 then s.value else 500, Failure(MessageOf(err)))
  }

  /** Every `ApiError` reaches the client as a 500, whatever status it was
      raised with, because the wrapper reads `status` and not `statusCode`. */
  lemma ApiErrorsAnswer500<T>(e: ApiError)
    ensures Handle<T>(Raised(ApiErr(e))).status == 500
    ensures Handle<T>(Raised(ApiErr(e))).body == Failure(e.message)
  {
  }
}
