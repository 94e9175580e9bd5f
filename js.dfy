/** What a JavaScript `throw` can carry into the action's `catch` blocks. */
module Js {

  /** A thrown value: an `Error` instance (TypeErrors, API client errors and
      the action's own `new Error(...)`) or any other value. */
  datatype Thrown = Error(message: string) | NonError

  /** The message of the TypeError that V8 raises when a property is read
      from `undefined`. */
  function ReadOfUndefined(property: string): string
  {
    "Cannot read properties of undefined (reading '" + property + "')"
  }
}
