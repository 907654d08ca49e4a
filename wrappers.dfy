/** The optional values and HTTP replies shared by every module of the model. */
module Wrappers {

  /** A JavaScript value that may be `undefined`/`null` (None) or present (Some). */
  datatype Option<+T> = None | Some(value: T) {
    function GetOr(default: T): T {
      match this
      case Some(v) => v
      case None => default
    }
  }

  /** `!value` for a request-body field that is a string or missing. */
  predicate Falsy(value: Option<string>) {
    value.None? || value.value == ""
  }

  /** A field of a parsed JSON request body: left out (`undefined`), sent as `null`, or given. */
  datatype Field<+T> = Absent | Null | Given(value: T) {
    /** What writing the field over a nullable slot holding `current` leaves there: the current value
        when the field is left out, nothing (`null`) when it is sent as null, the value when given. */
    function Over(current: Option<T>): (r: Option<T>)
      ensures Absent? ==> r == current
      ensures Null? ==> r.None?
      ensures Given? ==> r == Some(value)
    {
      match this
      case Absent => current
      case Null => None
      case Given(v) => Some(v)
    }

    /** The field as an optional value: what was given, or nothing when it was left out or null. */
    function Defined(): (r: Option<T>)
      ensures r.Some? <==> Given?
      ensures r.Some? ==> r.value == value
    {
      if Given? then Some(value) else None
    }
  }

  /** The body of an Express response: a JSON payload, a `{message}`/`{error}` object, or nothing (204). */
  datatype Body<+T> = Json(value: T) | Message(text: string) | Empty

  /** What a controller sends with `res.status(status).json(...)` or `.send()`. */
  datatype Reply<+T> = Reply(status: int, body: Body<T>)

  /** The outcome of an Express middleware: it either calls `next()` or answers the request itself. */
  datatype Outcome = Next | Respond(status: int, message: string)
}
