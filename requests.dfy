/** How one `fetch` to the backend ended, as the dialogs' `try`/`catch`
    blocks see it. The request itself is not modelled: its outcome is a
    parameter of the handler that sends it. */
module Requests {

  datatype Outcome =
    | /** `res.ok`. */
      Accepted
    | /** `!res.ok`; `details` is the reply's `details` field, `""` when it
          is missing or empty. */
      NotOk(details: string)
    | /** `fetch` or `res.json()` threw an `Error` with this message. */
      Threw(message: string)
    | /** Something other than an `Error` was thrown. */
      ThrewNonError

  const UnexpectedError: string := "An unexpected error occurred."

  /** The message the `catch` block stores: a non-ok reply throws
      `new Error(details || fallback)`, any `Error` keeps its message, and
      anything else gets the generic text. */
  function ErrorMessage(o: Outcome, fallback: string): (m: string)
    requires !o.Accepted?
    ensures o.NotOk? ==> m == (if o.details != "" then o.details else fallback)
    ensures o.Threw? ==> m == o.message
    ensures o.ThrewNonError? ==> m == UnexpectedError
  {
    match o
    case NotOk(details) => if details != "" then details else fallback
    case Threw(message) => message
    case ThrewNonError => UnexpectedError
  }
}
