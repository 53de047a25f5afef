/** Failure-carrying wrappers shared by every module of the sqlbee model.

    `Fault` lists the ways one operation of the `sqlbee` class can stop:
    the exceptions it throws, the `or die` exits on a rejected SQL
    statement, and the one artefact of the model itself, running out of
    fuel in the refresh-and-retry machine.
 */
module Results {

  datatype Option<+T> = None | Some(value: T) {

    /** The wrapped value, or `default` when there is none. */
    function GetOr(default: T): T {
      match this
      case Some(v) => v
      case None => default
    }
  }

  datatype Fault =
    | CurlError              // 'cURL error: ...' when the transport fails
    | CouldNotGrantToken     // a token reply without both tokens
    | InvalidThermostatId    // get_thermostat found no row
    | QueryFailed            // MySQL rejected the statement (`or die`)
    | OutOfFuel              // the model's bound on HTTP exchanges ran out

  datatype Result<+T> = Ok(value: T) | Err(fault: Fault) {

    predicate IsFailure() {
      Err?
    }

    function PropagateFailure<U>(): Result<U>
      requires Err?
    {
      Err(fault)
    }

    function Extract(): T
      requires Ok?
    {
      value
    }
  }

  /** Which reading of the source a definition follows: the code as it
      is written, or the behaviour its comments and callers evidently
      intend. Every place where the two differ is listed in README.md. */
  datatype Mode = AsWritten | Intended
}
