/**
 * The fault layer shared by the route handlers: the `APIFault` value a
 * handler throws, its formatting, and the mapping of anything thrown to an
 * error response `{ success: false, error }` with a status code.
 */
module Api {
  import Js

  /** An error message: a string or a structured object. */
  datatype Message = Text(text: string) | Structured(value: Js.Value)

  /** An `APIFault`: its fields are set once, by the constructor. */
  datatype Fault = Fault(name: string, message: Message, statusCode: int)

  /** `new APIFault(message, statusCode)`. */
  function NewFault(message: Message, statusCode: int): (f: Fault)
    ensures f.name == "APIFault"
    ensures f.message == message && f.statusCode == statusCode
  {
    Fault("APIFault", message, statusCode)
  }

  /** The object `formatError` returns. */
  datatype FormattedError = FormattedError(error: Message)

  /** `fault.formatError()`: the fault's message under the key `error`, and nothing else. */
  function FormatError(f: Fault): (r: FormattedError)
    ensures r.error == f.message
  {
    FormattedError(f.message)
  }

  /** What a handler can throw: an `APIFault`, an `Error` with its message, or any other value. */
  datatype Thrown =
    | ThrownFault(fault: Fault)
    | ThrownError(message: string)
    | ThrownValue(value: Js.Value)

  /** The JSON error response: its status, and the body `{ success, error }`. */
  datatype ErrorResponse = ErrorResponse(status: int, success: bool, error: Message)

  const UnknownError: string := "Unknown error occurred"

  /** `resolveAPIErrors(error)`, without the log line it writes. */
  function ResolveAPIErrors(t: Thrown): (r: ErrorResponse)
    ensures !r.success
    ensures t.ThrownFault? ==> r.status == t.fault.statusCode && r.error == FormatError(t.fault).error
    ensures !t.ThrownFault? ==> r.status == 500
    ensures t.ThrownError? ==> r.error == Text(t.message)
    ensures t.ThrownValue? ==> r.error == Text(UnknownError)
  {
    match t
    case ThrownFault(f) =>
      var formatted := FormatError(f);
      ErrorResponse(f.statusCode, false, formatted.error)
    case ThrownError(m) => ErrorResponse(500, false, Text(m))
    case ThrownValue(_) => ErrorResponse(500, false, Text(UnknownError))
  }

  /** Throwing `new APIFault(message, status)` and resolving it answers with that very status and message. */
  lemma FaultRoundTrip(message: Message, status: int)
    ensures ResolveAPIErrors(ThrownFault(NewFault(message, status))) == ErrorResponse(status, false, message)
  {
  }

  /** How a handler's body ends: with a value, or by throwing. */
  datatype Outcome<T> = Done(value: T) | Threw(thrown: Thrown)

  /** What a handler answers: `{ <successKey>: true, data }`, or an error response. */
  datatype Reply<T> = Success(successKey: string, data: T) | Failure(response: ErrorResponse)

  /** A handler's `try { ... } catch (error) { return resolveAPIErrors(error) }`. */
  function Respond<T>(o: Outcome<T>, successKey: string): (r: Reply<T>)
    ensures o.Done? <==> r.Success?
    ensures o.Done? ==> r == Success(successKey, o.value)
    ensures o.Threw? ==> r == Failure(ResolveAPIErrors(o.thrown))
  {
    match o
    case Done(v) => Success(successKey, v)
    case Threw(t) => Failure(ResolveAPIErrors(t))
  }

  /** `throw new APIFault(message, status)` with a text message. */
  function Throw<T>(message: string, status: int): Outcome<T> {
    Threw(ThrownFault(NewFault(Text(message), status)))
  }

  /** The reply to a thrown `APIFault` with a text message. */
  function FaultReply<T>(message: string, status: int): Reply<T> {
    Failure(ErrorResponse(status, false, Text(message)))
  }

  /** Throwing `new APIFault(message, status)` in a handler answers that status and message, under any success key. */
  lemma ThrowReplies<T>(message: string, status: int, successKey: string)
    ensures Respond<T>(Throw(message, status), successKey) == FaultReply(message, status)
  {
    FaultRoundTrip(Text(message), status);
  }
}
