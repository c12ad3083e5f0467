/** Awaited calls. */
module Awaits {

  /** How one awaited call ends: normally, with an exception before or after its effect, or never,
      because the process stops. */
  datatype Outcome = Completes | RaisesBefore | RaisesAfter | Stops
}
