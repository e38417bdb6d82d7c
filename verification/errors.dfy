/** Failures of the decision-diagram engine and of the AIG translator, and a
    failure-compatible result type so that `:-` propagates them. Every failure
    here is an exception in the original program that aborts the whole run. */
module Errors {

  datatype Error =
    /** `restrict` met a vertex whose variable precedes the restriction variable. */
    | LowerRestriction
    /** `restrict` took a child of a terminal, which has none. */
    | NoChild
    /** The AIG header declares latches; only combinational netlists are handled. */
    | LatchesUnsupported(latches: nat)
    /** A symbol-table line names an input position that does not exist. */
    | SymbolIndexOutOfRange(pos: nat)

  datatype Result<+T> = Ok(value: T) | Err(error: Error) {

    predicate IsFailure() {
      Err?
    }

    function PropagateFailure<U>(): Result<U>
      requires Err?
    {
      Err(error)
    }

    function Extract(): T
      requires Ok?
    {
      value
    }
  }
}
