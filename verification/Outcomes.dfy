/** The `(success, result, error)` triple every flow and the service return. */
module Outcomes {
  import opened Text

  /** The generic message that replaces every unexpected failure. */
  const InternalErrorMessage := "Internal server error"

  datatype Outcome = Outcome(success: bool, value: Option<string>, error: Option<string>)

  function Succeeded(v: string): Outcome {
    Outcome(true, Some(v), None)
  }

  function Failed(message: string): Outcome {
    Outcome(false, None, Some(message))
  }

  /** Either `(true, value, null)` or `(false, null, message)`, nothing else. */
  predicate WellFormed(o: Outcome) {
    if o.success then o.value.Some? && o.error.None? else o.value.None? && o.error.Some?
  }
}
