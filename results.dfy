/** Option and Result types shared by the model, and the ways a run can fail.
    A Python exception that nobody catches, and an explicit `sys.exit(1)`,
    both end the run; the model returns them as `Err` values instead. */
module Results {

  datatype Option<+T> = None | Some(value: T)

  /** How a call of the pipeline ends without a result. */
  datatype Failure =
    /** `raw_data[index]` on a page with too few code blocks: an uncaught IndexError */
    | IndexError(index: nat)
    /** `json.loads` raised at code block `index` and nothing caught it */
    | DecodeError(index: nat)
    /** "Error while parsing JSON data" printed, then `sys.exit(1)` */
    | ParseExit
    /** `js["included"]` is missing, or the payload is not something it can be read from */
    | MalformedPayload
    /** `.get` called on a value that is not a dict: an AttributeError */
    | NotAnObject
    /** `idxmax` of an empty series: a ValueError */
    | EmptySeries

  datatype Result<+T> = Ok(value: T) | Err(error: Failure) {
    predicate IsFailure() {
      Err?
    }

    function PropagateFailure<U>(): Result<U>
      requires Err?
    {
      Err(error)
    }

    function Extract(): T
      requires Ok?
    {
      value
    }
  }
}
