/** Shared result type for the error paths of the pay and pension engine. */
module Common {

  /** The ways a run of the dashboard script stops with an exception. */
  datatype Error =
    | InvalidRetirementDate   // datetime(...) rejects 29 February in a non-leap retirement year
    | MissingInitialRow       // the initial (level, position) has no row in the base matrix
    | EmptyLedger             // the last ledger row is read but no month was simulated

  datatype Result<T> = Ok(value: T) | Err(error: Error)
}
